// Response heads: headers override one another in order, and a response that is
// written out with its length reads back as it was written.
module HeadLaws {
  import opened Options
  import opened Text
  import opened Framing

  /** The name of a header line as it is compared; `None` without a colon. */
  function HeaderName(line: string): Option<string> {
    var name := Until(line, ':');
    if name == line then None else Some(LowerAll(Trim(name)))
  }

  function HeaderValue(line: string): string
    requires HeaderName(line).Some?
  {
    line[|Until(line, ':')| + 1..]
  }

  /** The last `Content-Length` decides, and one that does not parse clears what came before. */
  lemma {:induction false} LastLengthWins(head: Head, lines: seq<string>, i: nat)
    requires i < |lines| && HeaderName(lines[i]) == Some("content-length")
    requires forall j :: i < j < |lines| ==> HeaderName(lines[j]) != Some("content-length")
    ensures WithHeaders(head, lines).length == ParseU64(Trim(HeaderValue(lines[i])))
  {
    hide Until, Trim, LowerAll, Contains, ParseU64;
    if i < |lines| - 1 {
      LastLengthWins(head, lines[..|lines| - 1], i);
      assert HeaderName(lines[|lines| - 1]) != Some("content-length");
    }
  }

  /** So does the last `Transfer-Encoding`. */
  lemma {:induction false} LastEncodingWins(head: Head, lines: seq<string>, i: nat)
    requires i < |lines| && HeaderName(lines[i]) == Some("transfer-encoding")
    requires forall j :: i < j < |lines| ==> HeaderName(lines[j]) != Some("transfer-encoding")
    ensures WithHeaders(head, lines).chunked == Contains(LowerAll(HeaderValue(lines[i])), "chunked")
  {
    hide Until, Trim, LowerAll, Contains, ParseU64;
    if i < |lines| - 1 {
      LastEncodingWins(head, lines[..|lines| - 1], i);
      assert HeaderName(lines[|lines| - 1]) != Some("transfer-encoding");
    }
  }

  // --- A response with a length -----------------------------------------------------------

  function StatusLine(code: nat, reason: string): string {
    "HTTP/1.1 " + (Decimal(code) + (" " + reason))
  }

  function LengthLine(n: nat): string {
    "Content-Length: " + Decimal(n)
  }

  function WrittenHead(code: nat, reason: string, n: nat): string {
    StatusLine(code, reason) + CRLF + (LengthLine(n) + CRLF + CRLF)
  }

  /** A line ends at its CRLF. */
  lemma LinesStep(line: string, rest: string)
    requires '\n' !in line
    ensures Lines(line + CRLF + rest) == [line] + Lines(rest)
  {
    var whole := line + CRLF + rest;
    var front := line + "\r";
    assert whole == front + ("\n" + rest);
    UntilStops(front, '\n', "\n" + rest);
    assert whole[|front| + 1..] == rest;
    assert front[..|front| - 1] == line;
  }

  lemma DigitsAreClean(n: nat)
    ensures forall c :: c in Decimal(n) ==> IsDigit(c) && !IsSpace(c)
    ensures '\n' !in Decimal(n) && ':' !in Decimal(n)
  {
  }

  lemma {:induction false} WordAt(s: string, tail: string)
    requires (forall c :: c in s ==> !IsSpace(c)) && (tail == "" || IsSpace(tail[0]))
    ensures Word(s + tail) == s && AfterWord(s + tail) == tail
  {
    if s == "" {
      assert s + tail == tail;
    } else {
      assert s[0] in s && (s + tail)[1..] == s[1..] + tail;
      forall c | c in s[1..] ensures !IsSpace(c) { assert c in s; }
      WordAt(s[1..], tail);
      assert [s[0]] + s[1..] == s;
    }
  }

  /** The status line reads back its code, whatever the reason. */
  lemma StatusReadsBack(code: nat, reason: string)
    requires code < 0x10000
    ensures StatusCode(StatusLine(code, reason)) == Ok(code)
  {
    hide Decimal;
    var line := StatusLine(code, reason);
    var rest := " " + (Decimal(code) + (" " + reason));
    DigitsAreClean(code);
    assert line == "HTTP/1.1" + rest;
    WordAt("HTTP/1.1", rest);
    assert line[0] == 'H' && TrimStart(line) == line;
    NotBlank(line);
    assert rest[1..] == Decimal(code) + (" " + reason);
    assert IsDigit(Decimal(code)[0]);
    assert TrimStart(rest) == Decimal(code) + (" " + reason);
    WordAt(Decimal(code), " " + reason);
    assert ParseBelow(Decimal(code), 0x10000) == Some(code);
  }

  lemma {:induction false} NotBlank(s: string)
    requires s != "" && !IsSpace(s[0])
    ensures Trim(s) != "" && TrimEnd(s) != "" && TrimEnd(s)[0] == s[0]
  {
    if IsSpace(s[|s| - 1]) {
      NotBlank(s[..|s| - 1]);
    }
  }

  lemma LengthReadsBack(n: nat, head: Head)
    requires n < U64_LIMIT
    ensures WithHeader(head, LengthLine(n)) == head.(length := Some(n))
  {
    hide Decimal, LowerAll, Until;
    var line := LengthLine(n);
    assert Until(line, ':') == "Content-Length" by {
      assert line == "Content-Length" + (": " + Decimal(n));
      UntilStops("Content-Length", ':', ": " + Decimal(n));
    }
    assert line[15..] == " " + Decimal(n);
    LengthName();
    TrimNumber(n);
  }

  lemma TrimNumber(n: nat)
    ensures Trim(" " + Decimal(n)) == Decimal(n)
  {
    hide Decimal;
    DigitsAreClean(n);
    var value := " " + Decimal(n);
    assert value[1..] == Decimal(n) && IsDigit(Decimal(n)[0]) && IsDigit(Decimal(n)[|Decimal(n)| - 1]);
    TrimClean(Decimal(n));
    assert TrimStart(value) == TrimStart(Decimal(n));
  }

  lemma LengthName()
    ensures LowerAll(Trim("Content-Length")) == "content-length"
  {
    hide Trim, LowerAll;
    var name := "C" + ("ontent-" + ("L" + "ength"));
    assert "Content-Length" == name;
    LowerConcat("C", "ontent-" + ("L" + "ength"));
    LowerConcat("ontent-", "L" + "ength");
    LowerConcat("L", "ength");
    LowerOne('C');
    LowerOne('L');
    LowerStays("ontent-");
    LowerStays("ength");
    assert LowerAll(name) == "c" + ("ontent-" + ("l" + "ength"));
    TrimClean(name);
  }

  lemma LowerOne(c: char)
    ensures LowerAll([c]) == [Lower(c)]
  {
    assert [c][1..] == "";
  }

  lemma TrimClean(s: string)
    requires s != "" && !IsSpace(s[0]) && !IsSpace(s[|s| - 1])
    ensures Trim(s) == s
  {
  }

  lemma {:induction false} LowerAt(s: string)
    ensures |LowerAll(s)| == |s| && forall i :: 0 <= i < |s| ==> LowerAll(s)[i] == Lower(s[i])
  {
    hide Lower;
    if s != "" {
      LowerAt(s[1..]);
    }
  }

  lemma LowerConcat(a: string, b: string)
    ensures LowerAll(a + b) == LowerAll(a) + LowerAll(b)
  {
    hide LowerAll, Lower;
    LowerAt(a);
    LowerAt(b);
    LowerAt(a + b);
  }

  lemma LowerStays(s: string)
    requires forall c :: c in s ==> !('A' <= c <= 'Z')
    ensures LowerAll(s) == s
  {
    hide LowerAll;
    LowerAt(s);
    assert forall i :: 0 <= i < |s| ==> s[i] in s;
  }

  /** A written head reads back its code and its length. */
  lemma HeadReadsBack(code: nat, reason: string, n: nat)
    requires code < 0x10000 && n < U64_LIMIT && '\n' !in reason
    ensures HeadOf(WrittenHead(code, reason, n)) == Ok(Head(code, Some(n), false))
  {
    hide Decimal, StatusCode, WithHeader, Lines, WithHeaders;
    DigitsAreClean(code);
    DigitsAreClean(n);
    var status, length := StatusLine(code, reason), LengthLine(n);
    LinesStep(status, length + CRLF + CRLF);
    LinesStep(length, CRLF);
    LinesStep("", "");
    assert "" + CRLF + "" == CRLF && Lines("") == [] by { NoLines(); }
    var lines := [status, length, ""];
    assert Lines(WrittenHead(code, reason, n)) == lines;
    StatusReadsBack(code, reason);
    ThreeLines(Head(code, None, false), length);
    assert lines[1..] == [length, ""];
    LengthReadsBack(n, Head(code, None, false));
  }

  lemma NoLines()
    ensures Lines("") == []
  {
  }

  lemma ThreeLines(head: Head, line: string)
    ensures WithHeaders(head, [line, ""]) == WithHeader(head, line)
  {
    hide Trim, LowerAll, Contains, ParseU64;
    assert [line, ""][..1] == [line] && [line][..0] == [];
    assert WithHeaders(head, []) == head;
    assert Until("", ':') == "";
  }

  lemma HeadEndsThere(code: nat, reason: string, n: nat)
    requires '\n' !in reason
    ensures
      var head := WrittenHead(code, reason, n);
      |head| >= 4 && Find(head, END_OF_HEAD) == Some(|head| - 4)
  {
    hide Decimal;
    DigitsAreClean(code);
    DigitsAreClean(n);
    var status, length := StatusLine(code, reason), LengthLine(n);
    var head := WrittenHead(code, reason, n);
    var at := |head| - 4;
    assert head[at..at + 4] == END_OF_HEAD && MatchAt(head, at, END_OF_HEAD);
    forall j | 0 <= j < at ensures !MatchAt(head, j, END_OF_HEAD) {
      LineFeedAt(status, length, j + 1);
      LineFeedAt(status, length, j + 3);
      assert j + 4 <= |head|;
      assert head[j..j + 4][1] == head[j + 1] && head[j..j + 4][3] == head[j + 3];
    }
  }

  /** Where the line feeds of a two-line head are. */
  lemma LineFeedAt(a: string, b: string, i: nat)
    requires '\n' !in a && '\n' !in b && i < |a| + |b| + 6
    ensures (a + CRLF + (b + CRLF + CRLF))[i] == '\n' ==> i in [|a| + 1, |a| + |b| + 3, |a| + |b| + 5]
  {
  }

  /**
   * A response written with its length reads back: every code, every reason,
   * every body, and whatever bytes follow it on the connection.
   */
  lemma LengthResponse(code: nat, reason: string, body: string, more: string)
    requires code < 0x10000 && |body| < U64_LIMIT && '\n' !in reason
    ensures ParseResponse(WrittenHead(code, reason, |body|) + (body + more)) == Ok((code, body))
  {
    hide HeadOf, WrittenHead, Find;
    var head := WrittenHead(code, reason, |body|);
    HeadReadsBack(code, reason, |body|);
    HeadEndsThere(code, reason, |body|);
    FindIsStable(head, body + more, END_OF_HEAD);
    var raw := head + (body + more);
    assert raw[..|head|] == head && raw[|head|..] == body + more;
    assert (body + more)[..|body|] == body;
  }

  // --- Every response, case by case --------------------------------------------------------------

  /**
   * What a response parses to once its head is complete, for every head and
   * everything after it: chunks are decoded; a length cuts the body, or finds it
   * truncated; with neither the body is all there is.
   */
  lemma ResponseIs(head: string, rest: string)
    requires Find(head, END_OF_HEAD) == Some(|head| - 4)
    ensures HeadOf(head).Err? ==> ParseResponse(head + rest) == Err(HeadOf(head).error)
    ensures HeadOf(head).Ok? ==>
      var h, r := HeadOf(head).value, ParseResponse(head + rest);
      if h.chunked then
        if DecodeFrom(rest, 0).Ok? then r == Ok((h.code, DecodeFrom(rest, 0).value))
        else r == Err(DecodeFrom(rest, 0).error)
      else if h.length.None? then r == Ok((h.code, rest))
      else if |rest| < h.length.value then r == Err(TruncatedBody)
      else r == Ok((h.code, rest[..h.length.value]))
  {
    hide HeadOf, DecodeFrom;
    FindIsStable(head, rest, END_OF_HEAD);
    assert (head + rest)[..|head|] == head && (head + rest)[|head|..] == rest;
  }

  /** Without the end of a head there is no response. */
  lemma NoHeadNoResponse(raw: string)
    ensures ParseResponse(raw) == Err(HeadersNeverCompleted) <==> Find(raw, END_OF_HEAD).None?
  {
    hide DecodeFrom, HeadOf, MatchAt, FindFrom;
    if Find(raw, END_OF_HEAD).Some? {
      var at := Find(raw, END_OF_HEAD).value;
      HeadErrors(raw[..at + 4]);
      DecodeErrors(raw[at + 4..], 0);
    }
  }

  lemma HeadErrors(text: string)
    ensures HeadOf(text).Err? ==> HeadOf(text).error in {EmptyHead, BadStatusLine, BadVersion}
  {
  }

  lemma {:induction false} DecodeErrors(body: string, pos: nat)
    requires pos <= |body|
    ensures DecodeFrom(body, pos).Err? ==>
      DecodeFrom(body, pos).error in {MissingSizeLine, BadSize, TruncatedChunk, MissingCrlf}
    decreases |body| - pos
  {
    hide SizeOf;
    var round := RoundAt(body, pos);
    if round.More? { DecodeErrors(body, round.next); }
  }

  /** A status line of three words: the second is the code, if it is a number of 16 bits and the first names HTTP. */
  lemma StatusLineIs(version: string, code: string, reason: string)
    requires version != "" && code != "" && (forall c :: c in version + code ==> !IsSpace(c))
    ensures
      StatusCode(version + (" " + (code + (" " + reason)))) ==
      if ParseBelow(code, 0x10000).None? then Err(BadStatusLine)
      else if !("HTTP/" <= version) then Err(BadVersion) else Ok(ParseBelow(code, 0x10000).value)
  {
    hide ParseBelow;
    var rest := " " + (code + (" " + reason));
    var line := version + rest;
    assert forall i :: 0 <= i < |version| ==> (version + code)[i] == version[i];
    assert forall i :: 0 <= i < |code| ==> (version + code)[|version| + i] == code[i];
    assert line[0] == version[0] && (version + code)[0] == version[0];
    assert TrimStart(line) == line;
    NotBlank(line);
    WordAt(version, rest);
    assert rest[1..] == code + (" " + reason);
    assert !IsSpace((code + (" " + reason))[0]);
    assert TrimStart(rest) == code + (" " + reason);
    WordAt(code, " " + reason);
  }

  /** When reading may stop: with a length and no chunks, as soon as that much follows the head; otherwise never. */
  lemma CompleteExactly(head: string, rest: string)
    requires Find(head, END_OF_HEAD) == Some(|head| - 4) && HeadOf(head).Ok?
    requires HeadOf(head).value.length.Some? ==> |head| + HeadOf(head).value.length.value < U64_LIMIT
    ensures Complete(head + rest) <==>
      && !HeadOf(head).value.chunked && HeadOf(head).value.length.Some?
      && |rest| >= HeadOf(head).value.length.value
  {
    hide HeadOf;
    FindIsStable(head, rest, END_OF_HEAD);
    assert (head + rest)[..|head|] == head;
  }

  /** Nor before the head is complete. */
  lemma IncompleteHead(raw: string)
    requires Find(raw, END_OF_HEAD).None?
    ensures !Complete(raw)
  {
  }

  /** The blanks of ASCII: tab, line feed, vertical tab, form feed, carriage return and space. */
  predicate IsBlank(c: char) {
    c as int in {9, 10, 11, 12, 13, 32}
  }

  /** Trimming takes the blanks off both ends, and nothing else. */
  lemma {:induction false} TrimIs(s: string) returns (before: string, after: string)
    ensures s == before + Trim(s) + after
    ensures forall c :: c in before + after ==> IsBlank(c)
    ensures Trim(s) != "" ==> !IsBlank(Trim(s)[0]) && !IsBlank(Trim(s)[|Trim(s)| - 1])
  {
    before := StartBlanks(s);
    after := EndBlanks(TrimStart(s));
    EndKeepsFirst(TrimStart(s));
    forall c | c in before + after ensures IsBlank(c) { assert c in before || c in after; }
  }

  lemma {:induction false} StartBlanks(s: string) returns (before: string)
    ensures s == before + TrimStart(s) && forall c :: c in before ==> IsBlank(c)
    ensures TrimStart(s) != "" ==> !IsBlank(TrimStart(s)[0])
  {
    before := "";
    if s != "" && IsSpace(s[0]) {
      before := StartBlanks(s[1..]);
      assert s == [s[0]] + s[1..];
      before := [s[0]] + before;
    }
  }

  lemma {:induction false} EndBlanks(s: string) returns (after: string)
    ensures s == TrimEnd(s) + after && forall c :: c in after ==> IsBlank(c)
    ensures TrimEnd(s) != "" ==> !IsBlank(TrimEnd(s)[|TrimEnd(s)| - 1])
  {
    after := "";
    if s != "" && IsSpace(s[|s| - 1]) {
      after := EndBlanks(s[..|s| - 1]);
      assert s == s[..|s| - 1] + [s[|s| - 1]];
      after := after + [s[|s| - 1]];
    }
  }

  lemma {:induction false} EndKeepsFirst(s: string)
    ensures TrimEnd(s) != "" ==> TrimEnd(s)[0] == s[0]
  {
    if s != "" && IsSpace(s[|s| - 1]) {
      EndKeepsFirst(s[..|s| - 1]);
    }
  }
}
