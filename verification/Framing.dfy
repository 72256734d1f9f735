// HTTP/1.1 responses: heads, chunked bodies, and the loop that pieces them off a
// connection. A byte string is a `string` with one character for each byte.
module Framing {
  import opened Options
  import opened Text

  datatype HttpError =
    | HeadersNeverCompleted | EmptyHead | BadStatusLine | BadVersion
    | TruncatedBody | MissingSizeLine | BadSize | TruncatedChunk | MissingCrlf

  const CRLF := "\r\n"
  const END_OF_HEAD := "\r\n\r\n"

  // --- Text of a head -------------------------------------------------------------------------

  predicate IsSpace(c: char) {
    c == ' ' || 9 <= c as int <= 13
  }

  function TrimStart(s: string): string {
    if s != "" && IsSpace(s[0]) then TrimStart(s[1..]) else s
  }

  function TrimEnd(s: string): string {
    if s != "" && IsSpace(s[|s| - 1]) then TrimEnd(s[..|s| - 1]) else s
  }

  function Trim(s: string): string {
    TrimEnd(TrimStart(s))
  }

  /** The longest prefix without `c`. */
  function Until(s: string, c: char): (r: string)
    ensures |r| <= |s| && r == s[..|r|] && c !in r
    ensures |r| < |s| ==> s[|r|] == c
  {
    if s == "" || s[0] == c then "" else [s[0]] + Until(s[1..], c)
  }

  lemma {:induction false} UntilStops(s: string, c: char, tail: string)
    requires c !in s && (tail == "" || tail[0] == c)
    ensures Until(s + tail, c) == s
  {
    if s == "" {
      assert s + tail == tail;
    } else {
      assert s[0] in s && (s + tail)[1..] == s[1..] + tail;
      UntilStops(s[1..], c, tail);
    }
  }

  /** `lines()`: a trailing line feed ends the last line, and one `\r` before it goes with it. */
  function Lines(s: string): seq<string> {
    if s == "" then [] else
      var line := Until(s, '\n');
      if line == s then [line] else
        [if line != "" && line[|line| - 1] == '\r' then line[..|line| - 1] else line] + Lines(s[|line| + 1..])
  }

  /** `split_whitespace().next()` and the rest. */
  function Word(s: string): string {
    if s == "" || IsSpace(s[0]) then "" else [s[0]] + Word(s[1..])
  }

  function Lower(c: char): char {
    if 'A' <= c <= 'Z' then c - 'A' + 'a' else c
  }

  function LowerAll(s: string): string {
    if s == "" then "" else [Lower(s[0])] + LowerAll(s[1..])
  }

  datatype Head = Head(code: nat, length: Option<nat>, chunked: bool)

  /** What one header line does; a later line overrides an earlier one. */
  function WithHeader(head: Head, line: string): Head {
    var name := Until(line, ':');
    if name == line then head else
      var value := line[|name| + 1..];
      var key := LowerAll(Trim(name));
      if key == "content-length" then head.(length := ParseU64(Trim(value))) else
      if key == "transfer-encoding" then head.(chunked := Contains(LowerAll(value), "chunked"))
      else head
  }

  function WithHeaders(head: Head, lines: seq<string>): Head {
    if lines == [] then head else WithHeader(WithHeaders(head, lines[..|lines| - 1]), lines[|lines| - 1])
  }

  function StatusCode(status: string): Result<nat, HttpError> {
    if Trim(status) == "" then Err(EmptyHead) else
      var text := TrimStart(status);
      var version := Word(text);
      var code := ParseBelow(Word(TrimStart(AfterWord(text))), 0x10000);
      if code.None? then Err(BadStatusLine) else
      if !("HTTP/" <= version) then Err(BadVersion) else Ok(code.value)
  }

  function AfterWord(s: string): string {
    if s == "" || IsSpace(s[0]) then s else AfterWord(s[1..])
  }

  function HeadOf(text: string): Result<Head, HttpError> {
    var lines := Lines(text);
    if lines == [] then Err(EmptyHead) else
      match StatusCode(lines[0])
      case Err(e) => Err(e)
      case Ok(code) => Ok(WithHeaders(Head(code, None, false), lines[1..]))
  }

  method ParseHead(text: string) returns (r: Result<Head, HttpError>)
    ensures r == HeadOf(text)
  {
    hide Lines, StatusCode, Trim, LowerAll, Contains, ParseU64;
    var lines := Lines(text);
    if lines == [] { return Err(EmptyHead); }
    var status := StatusCode(lines[0]);
    if status.Err? { return Err(status.error); }
    var headers := lines[1..];
    var head := Head(status.value, None, false);
    for i := 0 to |headers|
      invariant head == WithHeaders(Head(status.value, None, false), headers[..i])
    {
      assert headers[..i + 1][..i] == headers[..i];
      var name := Until(headers[i], ':');
      if name != headers[i] {
        var value := headers[i][|name| + 1..];
        var key := LowerAll(Trim(name));
        if key == "content-length" {
          head := head.(length := ParseU64(Trim(value)));
        } else if key == "transfer-encoding" {
          head := head.(chunked := Contains(LowerAll(value), "chunked"));
        }
      }
    }
    assert headers[..|headers|] == headers;
    r := Ok(head);
  }

  // --- Chunked bodies -------------------------------------------------------------------------------

  predicate IsHex(c: char) {
    IsDigit(c) || 'a' <= c <= 'f' || 'A' <= c <= 'F'
  }

  function HexOf(c: char): nat
    requires IsHex(c)
  {
    if IsDigit(c) then c as int - '0' as int else Lower(c) as int - 'a' as int + 10
  }

  predicate AllHex(s: string) {
    forall i :: 0 <= i < |s| ==> IsHex(s[i])
  }

  function HexValue(s: string): nat
    requires AllHex(s)
  {
    if s == "" then 0 else 16 * HexValue(s[..|s| - 1]) + HexOf(s[|s| - 1])
  }

  /** `usize::from_str_radix(_, 16)`. */
  function ParseHex(s: string): Option<nat> {
    var body := if s != "" && s[0] == '+' then s[1..] else s;
    if body != "" && AllHex(body) && HexValue(body) < U64_LIMIT then Some(HexValue(body)) else None
  }

  /** The size a size line announces: extensions after `;` are dropped. */
  function SizeOf(line: string): Option<nat> {
    ParseHex(Trim(Until(line, ';')))
  }

  /** One round of the decoder: an error, the last chunk, or data and where to go on. */
  datatype Round =
    | Failed(error: HttpError)
    | Finished
    | More(data: string, next: nat)

  function RoundAt(body: string, pos: nat): (r: Round)
    requires pos <= |body|
    ensures r.More? ==> pos < r.next <= |body|
  {
    match FindFrom(body, pos, CRLF)
    case None => Failed(MissingSizeLine)
    case Some(lineEnd) =>
      match SizeOf(body[pos..lineEnd])
      case None => Failed(BadSize)
      case Some(size) =>
        if size == 0 then Finished else DataAt(body, lineEnd + 2, size)
  }

  function DataAt(body: string, start: nat, size: nat): (r: Round)
    ensures r.More? ==> start + size <= r.next <= |body|
  {
    var end := start + size;
    if end > |body| then Failed(TruncatedChunk) else
    if MatchAt(body, end, CRLF) then More(body[start..end], end + 2) else
    if end != |body| then Failed(MissingCrlf) else More(body[start..end], end)
  }

  /** What is left to decode at `pos`. */
  function DecodeFrom(body: string, pos: nat): Result<string, HttpError>
    requires pos <= |body|
    decreases |body| - pos
  {
    match RoundAt(body, pos)
    case Failed(e) => Err(e)
    case Finished => Ok("")
    case More(data, next) => Prepend(data, DecodeFrom(body, next))
  }

  function Prepend(data: string, rest: Result<string, HttpError>): Result<string, HttpError> {
    if rest.Ok? then Ok(data + rest.value) else rest
  }

  /** The decoder's loop; its position moves on in every round. */
  method DecodeChunkedAll(body: string) returns (r: Result<string, HttpError>)
    ensures r == DecodeFrom(body, 0)
  {
    hide MatchAt, SizeOf, Prepend;
    var out := "";
    var pos := 0;
    PrependNothing(DecodeFrom(body, 0));
    while true
      invariant pos <= |body|
      invariant DecodeFrom(body, 0) == Prepend(out, DecodeFrom(body, pos))
      decreases |body| - pos
    {
      PrependIs(out, DecodeFrom(body, pos));
      var found := FindFrom(body, pos, CRLF);
      if found.None? { return Err(MissingSizeLine); }
      var size := SizeOf(body[pos..found.value]);
      if size.None? { return Err(BadSize); }
      var start := found.value + 2;
      if size.value == 0 { return Ok(out); }
      var end := start + size.value;
      if end > |body| { return Err(TruncatedChunk); }
      ghost var before, was := out, pos;
      out := out + body[start..end];
      pos := end;
      if MatchAt(body, pos, CRLF) {
        pos := pos + 2;
      } else if pos != |body| {
        return Err(MissingCrlf);
      }
      assert RoundAt(body, was) == More(body[start..end], pos);
      PrependTwice(before, body[start..end], DecodeFrom(body, pos));
    }
  }

  lemma PrependNothing(r: Result<string, HttpError>)
    ensures Prepend("", r) == r
  {
    if r.Ok? {
      assert "" + r.value == r.value;
    }
  }

  lemma PrependIs(data: string, r: Result<string, HttpError>)
    ensures Prepend(data, r) == if r.Ok? then Ok(data + r.value) else r
    ensures data + "" == data
  {
  }

  lemma PrependTwice(a: string, b: string, r: Result<string, HttpError>)
    ensures Prepend(a, Prepend(b, r)) == Prepend(a + b, r)
  {
    if r.Ok? {
      assert a + (b + r.value) == (a + b) + r.value;
    }
  }

  // --- Whole responses --------------------------------------------------------------------------------

  /** Where the body starts, and its length when the head fixes one. */
  function ResponseShape(raw: string): Option<(nat, Option<nat>)> {
    match Find(raw, END_OF_HEAD)
    case None => None
    case Some(at) =>
      match HeadOf(raw[..at + 4])
      case Err(_) => None
      case Ok(head) => Some((at + 4, if head.chunked then None else head.length))
  }

  function ParseResponse(raw: string): Result<(nat, string), HttpError> {
    match Find(raw, END_OF_HEAD)
    case None => Err(HeadersNeverCompleted)
    case Some(at) =>
      match HeadOf(raw[..at + 4])
      case Err(e) => Err(e)
      case Ok(head) =>
        match BodyOf(head, raw[at + 4..])
        case Err(e) => Err(e)
        case Ok(body) => Ok((head.code, body))
  }

  function BodyOf(head: Head, rest: string): Result<string, HttpError> {
    if head.chunked then DecodeFrom(rest, 0) else
    if head.length.None? then Ok(rest) else
    if |rest| < head.length.value then Err(TruncatedBody) else Ok(rest[..head.length.value])
  }

  function Concat(pieces: seq<string>): string {
    if pieces == [] then "" else Concat(pieces[..|pieces| - 1]) + pieces[|pieces| - 1]
  }

  /** The read loop may stop here; the sum wraps as 64-bit addition does. */
  predicate Complete(raw: string) {
    var shape := ResponseShape(raw);
    shape.Some? && shape.value.1.Some? && |raw| >= (shape.value.0 + shape.value.1.value) % U64_LIMIT
  }

  /**
   * The read loop of a request: `pieces` are what the connection delivers, one
   * non-empty read at a time, before it is closed. Whatever the split, the
   * result is that of the whole stream, and the loop reads on only as long as
   * the response is not complete.
   */
  method ReadResponse(pieces: seq<string>) returns (r: Result<(nat, string), HttpError>, next: nat)
    requires |Concat(pieces)| < U64_LIMIT && forall i :: 0 <= i < |pieces| ==> pieces[i] != ""
    ensures r == ParseResponse(Concat(pieces))
    ensures next <= |pieces| && forall n :: 0 <= n < next ==> !Complete(Concat(pieces[..n]))
    ensures next < |pieces| ==> Complete(Concat(pieces[..next]))
  {
    hide ParseResponse, Complete;
    var raw := "";
    next := 0;
    while !Complete(raw) && next < |pieces|
      invariant next <= |pieces| && raw == Concat(pieces[..next])
      invariant forall n :: 0 <= n < next ==> !Complete(Concat(pieces[..n]))
    {
      assert pieces[..next + 1][..next] == pieces[..next];
      raw := raw + pieces[next];
      next := next + 1;
    }
    assert pieces[..|pieces|] == pieces;
    if Complete(raw) {
      var rest := ConcatPrefix(pieces, next);
      EarlyStopIsSafe(raw, rest);
    }
    r := ParseResponse(raw);
  }

  lemma {:induction false} ConcatPrefix(pieces: seq<string>, n: nat) returns (rest: string)
    requires n <= |pieces|
    ensures Concat(pieces) == Concat(pieces[..n]) + rest
  {
    if n == |pieces| {
      assert pieces[..n] == pieces;
      rest := "";
    } else {
      var front := pieces[..|pieces| - 1];
      rest := ConcatPrefix(front, n);
      assert front[..n] == pieces[..n];
      assert (Concat(pieces[..n]) + rest) + pieces[|pieces| - 1] == Concat(pieces[..n]) + (rest + pieces[|pieces| - 1]);
      rest := rest + pieces[|pieces| - 1];
    }
  }

  /** The first occurrence stays the first when bytes are appended. */
  lemma FindIsStable(raw: string, more: string, needle: string)
    requires Find(raw, needle).Some?
    ensures Find(raw + more, needle) == Find(raw, needle)
  {
    var at := Find(raw, needle).value;
    forall j | 0 <= j <= at ensures MatchAt(raw + more, j, needle) <==> MatchAt(raw, j, needle) {
      assert j + |needle| <= |raw|;
      assert (raw + more)[j..j + |needle|] == raw[j..j + |needle|];
    }
  }

  /** Once the head is complete, more bytes do not change the shape of the response. */
  lemma ShapeIsStable(raw: string, more: string)
    requires Find(raw, END_OF_HEAD).Some?
    ensures ResponseShape(raw + more) == ResponseShape(raw)
    ensures (raw + more)[..Find(raw, END_OF_HEAD).value + 4] == raw[..Find(raw, END_OF_HEAD).value + 4]
  {
    FindIsStable(raw, more, END_OF_HEAD);
    var at := Find(raw, END_OF_HEAD).value + 4;
    assert (raw + more)[..at] == raw[..at];
  }

  /** Stopping early never cuts the body: what is still to come does not change the result. */
  lemma EarlyStopIsSafe(raw: string, more: string)
    requires |raw + more| < U64_LIMIT
    ensures Complete(raw) ==> ParseResponse(raw + more) == ParseResponse(raw)
  {
    if Complete(raw) {
      CompleteIsEnough(raw, more);
    }
  }

  lemma CompleteIsEnough(raw: string, more: string)
    requires Complete(raw) && |raw + more| < U64_LIMIT
    ensures ParseResponse(raw + more) == ParseResponse(raw)
  {
    hide HeadOf;
    ShapeIsStable(raw, more);
    FindIsStable(raw, more, END_OF_HEAD);
    var at := Find(raw, END_OF_HEAD).value + 4;
    var head := HeadOf(raw[..at]).value;
    var n := head.length.value;
    assert (raw + more)[at..] == raw[at..] + more;
    if |raw| - at >= n {
      assert (raw[at..] + more)[..n] == raw[at..][..n];
    }
  }
}
