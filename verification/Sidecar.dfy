/** Tailing the result file (backend/cmd/sidecar/main.go). A file is a string of bytes that only
    grows; an offset is a byte position in it. */
module Sidecar {
  import opened Model
  import opened Text
  import opened Jtl

  /** bufio.MaxScanTokenSize. */
  const MAX_TOKEN: nat := 65536

  /** The bytes a read starting at offset sees. Seeking past the end is allowed and sees none. */
  function From(content: string, offset: nat): string {
    if offset <= |content| then content[offset..] else ""
  }

  function DropCR(s: string): string {
    if |s| > 0 && s[|s| - 1] == '\r' then s[..|s| - 1] else s
  }

  /** One call of a bufio.Scanner with ScanLines. */
  datatype Scan = AtEnd | TooLong | Token(line: string, rest: string)

  function ScanLine(data: string): Scan {
    var i := IndexOf(data, '\n');
    if |data| == 0 then AtEnd
    else if i >= MAX_TOKEN then TooLong
    else Token(DropCR(data[..i]), if i < |data| then data[i + 1..] else "")
  }

  // ---------- lines ----------

  /** The text cut at its newlines. The last piece may lack one; there is no empty last piece. */
  function RawLines(text: string): seq<string> {
    if |text| == 0 then []
    else AddInFront(text[0], RawLines(text[1..]))
  }

  function AddInFront(c: char, lines: seq<string>): seq<string> {
    if c == '\n' then [""] + lines
    else if |lines| == 0 then [[c]]
    else [[c] + lines[0]] + lines[1..]
  }

  function DropCRs(raws: seq<string>): seq<string> {
    if |raws| == 0 then [] else [DropCR(raws[0])] + DropCRs(raws[1..])
  }

  /** The lines of a text: without their newlines, and without a carriage return before one. */
  function Lines(text: string): seq<string> {
    DropCRs(RawLines(text))
  }

  predicate Unterminated(data: string) {
    |data| > 0 && data[|data| - 1] != '\n'
  }

  lemma {:induction false} LineThenRest(line: string, rest: string)
    requires '\n' !in line
    ensures RawLines(line + "\n" + rest) == [line] + RawLines(rest)
    ensures line != "" ==> RawLines(line) == [line]
  {
    var text := line + "\n" + rest;
    if line == "" {
      assert text[1..] == rest;
    } else {
      assert text[1..] == line[1..] + "\n" + rest;
      assert line[0] in line && line == [line[0]] + line[1..];
      LineThenRest(line[1..], rest);
      assert line[1..] == "" ==> RawLines(line[1..]) == [] && line == [line[0]];
    }
  }

  lemma {:induction false} FirstLine(text: string) returns (line: string, rest: string)
    requires text != ""
    ensures '\n' !in line && |rest| < |text|
    ensures text == line + "\n" + rest || (text == line && rest == "" && Unterminated(text))
    ensures RawLines(text) == [line] + RawLines(rest)
    ensures ScanLine(text) == if |line| >= MAX_TOKEN then TooLong else Token(DropCR(line), rest)
  {
    var i := IndexOf(text, '\n');
    IndexOfIsFirst(text, '\n');
    line := text[..i];
    if i < |text| {
      rest := text[i + 1..];
    } else {
      rest := "";
      assert text[|text| - 1] in text;
    }
    LineThenRest(line, rest);
  }

  // ---------- one read ----------

  datatype ReadResult = ReadResult(lines: seq<string>, advance: nat, ok: bool)

  function ReadLines(raws: seq<string>): ReadResult {
    if |raws| == 0 then ReadResult([], 0, true)
    else if |raws[0]| >= MAX_TOKEN then ReadResult([], 0, false)
    else
      var line, r := DropCR(raws[0]), ReadLines(raws[1..]);
      ReadResult([line] + r.lines, |line| + 1 + r.advance, r.ok)
  }

  /** What readNewLines computes from the bytes it sees. */
  function ReadAll(data: string): ReadResult {
    ReadLines(RawLines(data))
  }

  lemma {:induction false} ReadStep(data: string)
    ensures match ScanLine(data)
      case AtEnd => ReadAll(data) == ReadResult([], 0, true)
      case TooLong => ReadAll(data) == ReadResult([], 0, false)
      case Token(line, rest) =>
        var r := ReadAll(rest);
        |rest| < |data| && ReadAll(data) == ReadResult([line] + r.lines, |line| + 1 + r.advance, r.ok)
  {
    if data != "" {
      var line, rest := FirstLine(data);
      assert RawLines(data)[1..] == RawLines(rest);
    }
  }

  method ReadNewLines(content: string, offset: nat) returns (lines: seq<string>, newOffset: nat, ok: bool)
    ensures newOffset >= offset
    ensures ReadResult(lines, newOffset - offset, ok) == ReadAll(From(content, offset))
  {
    var data := From(content, offset);
    ghost var whole := ReadAll(data);
    lines, newOffset := [], offset;
    while true
      invariant offset <= newOffset
      invariant whole.lines == lines + ReadAll(data).lines
      invariant offset + whole.advance == newOffset + ReadAll(data).advance
      invariant whole.ok == ReadAll(data).ok
      decreases |data|
    {
      ReadStep(data);
      match ScanLine(data)
      case AtEnd =>
        return lines, newOffset, true;
      case TooLong =>
        return lines, newOffset, false;
      case Token(line, rest) =>
        newOffset := newOffset + |line| + 1;
        lines := lines + [line];
        data := rest;
    }
  }

  /** Carriage returns that end a line: before a newline, or at the very end. */
  function DroppedCRs(data: string): nat {
    if |data| == 0 then 0
    else (if data[0] == '\r' && (|data| == 1 || data[1] == '\n') then 1 else 0) + DroppedCRs(data[1..])
  }

  lemma {:induction false} DroppedCRsOfLine(line: string, rest: string)
    requires '\n' !in line
    ensures DroppedCRs(line + "\n" + rest) == |line| - |DropCR(line)| + DroppedCRs(rest)
    ensures DroppedCRs(line) == |line| - |DropCR(line)|
  {
    var s := line + "\n" + rest;
    if line == "" {
      assert s[0] == '\n' && s[1..] == rest;
    } else {
      assert s[1..] == line[1..] + "\n" + rest;
      DroppedCRsOfLine(line[1..], rest);
      assert |line| > 1 ==> line[1] in line && s[1] == line[1];
    }
  }

  /** The bytes before the first line that is over the scanner's limit. */
  function Scanned(data: string): string
    decreases |data|
  {
    var i := IndexOf(data, '\n');
    if i >= MAX_TOKEN then ""
    else if i == |data| then data
    else data[..i + 1] + Scanned(data[i + 1..])
  }

  lemma {:induction false} ScannedStep(line: string, rest: string)
    requires '\n' !in line
    ensures Scanned(line + "\n" + rest) == if |line| >= MAX_TOKEN then "" else line + "\n" + Scanned(rest)
    ensures Scanned(line) == if |line| >= MAX_TOKEN then "" else line
  {
    IndexOfFound(line, '\n', rest);
    var data := line + ['\n'] + rest;
    assert line + "\n" + rest == data;
    assert data[..|line| + 1] == line + "\n" && data[|line| + 1..] == rest;
  }

  /** What a read leaves: nothing, or a line over the limit. */
  predicate StopsAtOverlong(data: string, n: nat) {
    n + MAX_TOKEN <= |data| && '\n' !in data[n..n + MAX_TOKEN]
  }

  /** A read of data returned the lines of part and advanced by its bytes, plus 1 for a newline that is
      not there yet, minus the carriage returns it dropped. */
  predicate Accounted(data: string, part: string, r: ReadResult) {
    && r.lines == Lines(part)
    && r.advance == |part| + (if Unterminated(part) then 1 else 0) - DroppedCRs(part)
    && part <= data
    && (r.ok <==> part == data)
    && (!r.ok ==> StopsAtOverlong(data, |part|))
  }

  /** Offset accounting, for every read: it accounts for exactly the bytes before the first overlong
      line, and fails exactly when there is such a line. */
  lemma {:induction false} OffsetAccounting(data: string)
    ensures Accounted(data, Scanned(data), ReadAll(data))
    decreases |data|
  {
    if data != "" {
      var line, rest := FirstLine(data);
      ScannedStep(line, rest);
      ReadStep(data);
      if |line| >= MAX_TOKEN {
        StoppedAtOnce(line, data);
      } else if data == line {
        WholeLine(line);
      } else {
        OffsetAccounting(rest);
        OneMoreLine(line, rest, Scanned(rest), ReadAll(rest));
      }
    }
  }

  lemma {:induction false} StoppedAtOnce(line: string, data: string)
    requires '\n' !in line && |line| >= MAX_TOKEN && line <= data
    ensures Accounted(data, "", ReadResult([], 0, false))
  {
    assert data[0..0 + MAX_TOKEN] == line[..MAX_TOKEN];
  }

  lemma {:induction false} WholeLine(line: string)
    requires '\n' !in line && line != ""
    ensures Accounted(line, line, ReadResult([DropCR(line)], |DropCR(line)| + 1, true))
  {
    LineThenRest(line, "");
    assert DropCRs([line]) == [DropCR(line)];
    DroppedCRsOfLine(line, "");
    assert line[|line| - 1] in line;
  }

  lemma {:induction false} OneMoreLine(line: string, rest: string, part: string, r: ReadResult)
    requires '\n' !in line && Accounted(rest, part, r)
    ensures Accounted(line + "\n" + rest, line + "\n" + part,
      ReadResult([DropCR(line)] + r.lines, |DropCR(line)| + 1 + r.advance, r.ok))
  {
    LineThenRest(line, part);
    assert RawLines(line + "\n" + part)[1..] == RawLines(part);
    DroppedCRsOfLine(line, part);
    PartsAlign(line + "\n", rest, part);
    assert Unterminated(line + "\n" + part) <==> Unterminated(part);
  }

  lemma {:induction false} PartsAlign(first: string, rest: string, part: string)
    requires part <= rest
    ensures first + part <= first + rest
    ensures first + part == first + rest <==> part == rest
    ensures StopsAtOverlong(rest, |part|) ==> StopsAtOverlong(first + rest, |first + part|)
  {
    assert (first + part)[|first|..] == part && (first + rest)[|first|..] == rest;
    if StopsAtOverlong(rest, |part|) {
      var n := |first + part|;
      assert (first + rest)[n..n + MAX_TOKEN] == rest[|part|..|part| + MAX_TOKEN];
    }
  }

  predicate NewlineWithinLimit(data: string, k: nat)
    requires k + MAX_TOKEN <= |data|
  {
    '\n' in data[k..k + MAX_TOKEN]
  }

  /** No MAX_TOKEN consecutive bytes without a newline. */
  ghost predicate LinesFit(data: string) {
    forall k: nat | k + MAX_TOKEN <= |data| :: NewlineWithinLimit(data, k)
  }

  lemma {:induction false} LinesFitInSuffix(data: string, n: nat)
    requires n <= |data| && LinesFit(data)
    ensures LinesFit(data[n..])
  {
    forall k: nat | k + MAX_TOKEN <= |data[n..]| ensures NewlineWithinLimit(data[n..], k) {
      assert NewlineWithinLimit(data, n + k);
      assert data[n..][k..k + MAX_TOKEN] == data[n + k..n + k + MAX_TOKEN];
    }
  }

  lemma {:induction false} LinesFitStepwise(line: string, rest: string)
    requires '\n' !in line
    ensures LinesFit(line + "\n" + rest) <==> |line| < MAX_TOKEN && LinesFit(rest)
  {
    var data := line + "\n" + rest;
    assert data[|line| + 1..] == rest;
    if |line| >= MAX_TOKEN {
      assert data[0..0 + MAX_TOKEN] == line[..MAX_TOKEN];
      assert !NewlineWithinLimit(data, 0);
    } else if LinesFit(data) {
      LinesFitInSuffix(data, |line| + 1);
    } else if LinesFit(rest) {
      forall k: nat | k + MAX_TOKEN <= |data| ensures NewlineWithinLimit(data, k) {
        if k <= |line| {
          assert data[k..k + MAX_TOKEN][|line| - k] == '\n';
        } else {
          assert NewlineWithinLimit(rest, k - |line| - 1);
          assert data[k..k + MAX_TOKEN] == rest[k - |line| - 1..k - |line| - 1 + MAX_TOKEN];
        }
      }
    }
  }

  /** A read reports an error exactly when some line is over the scanner's limit. */
  lemma {:induction false} ReadFailsExactlyOnOverlongLines(data: string)
    ensures ReadAll(data).ok <==> LinesFit(data)
    decreases |data|
  {
    if data != "" {
      var line, rest := FirstLine(data);
      assert RawLines(data)[1..] == RawLines(rest);
      if data == line {
        assert RawLines(data)[1..] == [] && ReadLines([]).ok;
        if |data| >= MAX_TOKEN {
          assert data[0..0 + MAX_TOKEN] == line[..MAX_TOKEN];
          assert !NewlineWithinLimit(data, 0);
        }
      } else {
        LinesFitStepwise(line, rest);
        ReadFailsExactlyOnOverlongLines(rest);
      }
    }
  }

  /** Once the offset reaches an overlong line, no later read of the growing file returns a line or
      moves the offset again. */
  lemma {:induction false} OverlongLineStopsTheTail(content: string, offset: nat, grown: string)
    requires StopsAtOverlong(content, offset) && content <= grown
    ensures ReadAll(From(grown, offset)) == ReadResult([], 0, false)
  {
    var later := grown[offset..];
    var line, rest := FirstLine(later);
    forall k | 0 <= k < MAX_TOKEN ensures later[k] != '\n' {
      assert later[k] == content[offset..offset + MAX_TOKEN][k];
    }
    assert |line| < |later| ==> later[|line|] == '\n';
  }

  // ---------- clean texts ----------

  predicate CrLfAt(text: string, k: nat) {
    k + 1 < |text| && text[k] == '\r' && text[k + 1] == '\n'
  }

  /** Every line is ended by a bare newline, the last one included. */
  ghost predicate Clean(text: string) {
    && !Unterminated(text)
    && forall k: nat :: !CrLfAt(text, k)
  }

  lemma {:induction false} CleanSuffix(text: string, n: nat)
    requires n <= |text| && Clean(text)
    ensures Clean(text[n..])
  {
    forall k: nat ensures !CrLfAt(text[n..], k) {
      assert !CrLfAt(text, n + k);
    }
  }

  lemma {:induction false} CleanDropsNothing(text: string)
    ensures !Unterminated(text) ==> (DroppedCRs(text) == 0 <==> Clean(text))
  {
    if text != "" {
      var t := text[1..];
      CleanDropsNothing(t);
      if Clean(text) {
        CleanSuffix(text, 1);
        assert !CrLfAt(text, 0);
      } else if !Unterminated(text) && Clean(t) {
        var k: nat :| CrLfAt(text, k);
        assert k > 0 ==> CrLfAt(t, k - 1);
      }
    }
  }

  /** The text whose lines are these, each ended by a bare newline. */
  function Unlines(lines: seq<string>): string {
    if |lines| == 0 then "" else lines[0] + "\n" + Unlines(lines[1..])
  }

  /** Lines of a clean text are exactly its text: nothing added, dropped, repeated or reordered. */
  lemma {:induction false} CleanTextIsItsLines(text: string)
    requires Clean(text)
    ensures Unlines(Lines(text)) == text
    ensures forall l | l in Lines(text) :: '\n' !in l
    decreases |text|
  {
    if text != "" {
      var line, rest := FirstLine(text);
      assert text[|line| + 1..] == rest;
      CleanSuffix(text, |line| + 1);
      CleanTextIsItsLines(rest);
      assert RawLines(text)[1..] == RawLines(rest);
      assert line != "" ==> !CrLfAt(text, |line| - 1);
      assert Lines(text) == [line] + Lines(rest);
    }
  }

  lemma {:induction false} DropCRsAppend(a: seq<string>, b: seq<string>)
    ensures DropCRs(a + b) == DropCRs(a) + DropCRs(b)
  {
    if a == [] {
      assert a + b == b;
    } else {
      assert (a + b)[1..] == a[1..] + b;
      DropCRsAppend(a[1..], b);
    }
  }

  lemma {:induction false} AddInFrontAppend(c: char, a: seq<string>, b: seq<string>)
    ensures c == '\n' || a != [] ==> AddInFront(c, a + b) == AddInFront(c, a) + b
  {
    if a != [] {
      assert (a + b)[1..] == a[1..] + b;
    }
  }

  lemma {:induction false} RawLinesAppend(a: string, b: string)
    requires !Unterminated(a)
    ensures RawLines(a + b) == RawLines(a) + RawLines(b)
  {
    if a == "" {
      assert a + b == b;
    } else {
      assert (a + b)[1..] == a[1..] + b;
      RawLinesAppend(a[1..], b);
      AddInFrontAppend(a[0], RawLines(a[1..]), RawLines(b));
    }
  }

  lemma {:induction false} LinesAppend(a: string, b: string)
    requires !Unterminated(a)
    ensures Lines(a + b) == Lines(a) + Lines(b)
  {
    RawLinesAppend(a, b);
    DropCRsAppend(RawLines(a), RawLines(b));
  }

  function Newlines(text: string): nat {
    if |text| == 0 then 0 else (if text[0] == '\n' then 1 else 0) + Newlines(text[1..])
  }

  lemma {:induction false} NewlinesAppend(a: string, b: string)
    ensures Newlines(a + b) == Newlines(a) + Newlines(b)
    ensures '\n' !in a ==> Newlines(a) == 0
  {
    if a == "" {
      assert a + b == b;
    } else {
      assert (a + b)[1..] == a[1..] + b;
      NewlinesAppend(a[1..], b);
      assert a[0] in a;
    }
  }

  lemma {:induction false} LineCount(text: string)
    ensures |RawLines(text)| == Newlines(text) + if Unterminated(text) then 1 else 0
  {
    if text != "" {
      LineCount(text[1..]);
    }
  }

  lemma {:induction false} SameLength(raws: seq<string>)
    ensures |DropCRs(raws)| == |raws|
  {
    if raws != [] {
      SameLength(raws[1..]);
    }
  }

  // ---------- when a read may be resumed ----------

  /** Reading chunk and then the rest of any longer file gives the lines of the whole file. */
  ghost predicate ResumesExactly(chunk: string) {
    forall more: string ::
      Lines(chunk + more) == Lines(chunk) + Lines(From(chunk + more, ReadAll(chunk).advance))
  }

  /** Tailing is exact whatever is written next precisely when the observed bytes end at the end of
      a line and no line ends in \r\n. */
  lemma {:induction false} ResumableExactlyWhenClean(chunk: string)
    requires LinesFit(chunk)
    ensures ResumesExactly(chunk) <==> Clean(chunk)
  {
    ReadFailsExactlyOnOverlongLines(chunk);
    OffsetAccounting(chunk);
    CleanDropsNothing(chunk);
    var adv := ReadAll(chunk).advance;
    if Clean(chunk) {
      forall more: string
        ensures Lines(chunk + more) == Lines(chunk) + Lines(From(chunk + more, adv))
      {
        assert (chunk + more)[|chunk|..] == more;
        LinesAppend(chunk, more);
      }
    } else {
      var more := if Unterminated(chunk) then "x\n" else "";
      SomethingIsReadAgain(chunk, more, adv);
    }
  }

  lemma {:induction false} SomethingIsReadAgain(chunk: string, more: string, adv: nat)
    requires Unterminated(chunk) ==> more == "x\n" && adv <= |chunk| + 1
    requires !Unterminated(chunk) ==> more == "" && adv < |chunk|
    ensures Lines(chunk + more) != Lines(chunk) + Lines(From(chunk + more, adv))
  {
    var whole, again := chunk + more, From(chunk + more, adv);
    assert again != "";
    NewlinesAppend(chunk, more);
    LineCount(whole);
    LineCount(chunk);
    var _, _ := FirstLine(again);
    SameLength(RawLines(whole));
    SameLength(RawLines(chunk));
    SameLength(RawLines(again));
    if Unterminated(chunk) {
      NewlinesAppend("x", "\n");
      assert more == "x" + "\n" && |more[1..]| == 1;
      assert whole[|whole| - 1] == '\n';
    } else {
      assert whole == chunk;
    }
  }

  lemma {:induction false} ReadsTheLines(raws: seq<string>)
    requires ReadLines(raws).ok
    ensures ReadLines(raws).lines == DropCRs(raws)
  {
    if raws != [] {
      ReadsTheLines(raws[1..]);
    }
  }

  lemma {:induction false} CleanReadIsComplete(chunk: string)
    requires Clean(chunk) && LinesFit(chunk)
    ensures ReadAll(chunk) == ReadResult(Lines(chunk), |chunk|, true)
  {
    ReadFailsExactlyOnOverlongLines(chunk);
    OffsetAccounting(chunk);
    CleanDropsNothing(chunk);
    ReadsTheLines(RawLines(chunk));
  }

  // ---------- the polling loop ----------

  /** The lines that successive polls return, starting at offset. */
  function PolledLines(contents: seq<string>, offset: nat): seq<seq<string>> {
    if |contents| == 0 then []
    else
      var r := ReadAll(From(contents[0], offset));
      [r.lines] + PolledLines(contents[1..], offset + r.advance)
  }

  function FinalOffset(contents: seq<string>, offset: nat): nat {
    if |contents| == 0 then offset
    else FinalOffset(contents[1..], offset + ReadAll(From(contents[0], offset)).advance)
  }

  function Concat(batches: seq<seq<string>>): seq<string> {
    if |batches| == 0 then [] else batches[0] + Concat(batches[1..])
  }

  /** From seen on, a file that only grows and is clean and within the scanner's limit at every poll. */
  ghost predicate CleanGrowth(seen: string, contents: seq<string>)
    decreases |contents|
  {
    |contents| > 0 ==>
      && seen <= contents[0] && Clean(contents[0]) && LinesFit(contents[0])
      && CleanGrowth(contents[0], contents[1..])
  }

  function LastSeen(seen: string, contents: seq<string>): string
    decreases |contents|
  {
    if |contents| == 0 then seen else LastSeen(contents[0], contents[1..])
  }

  lemma {:induction false} LastSeenIsLast(seen: string, contents: seq<string>)
    requires Clean(seen) && CleanGrowth(seen, contents)
    ensures Clean(LastSeen(seen, contents)) && seen <= LastSeen(seen, contents)
    ensures contents != [] ==> LastSeen(seen, contents) == contents[|contents| - 1]
    decreases |contents|
  {
    if contents != [] {
      LastSeenIsLast(contents[0], contents[1..]);
    }
  }

  /** Exactly-once reading, from any position the previous poll can have left. */
  lemma {:induction false} PollsReadExactlyOnceFrom(seen: string, contents: seq<string>)
    requires Clean(seen) && CleanGrowth(seen, contents)
    ensures FinalOffset(contents, |seen|) == |LastSeen(seen, contents)|
    ensures Lines(seen) + Concat(PolledLines(contents, |seen|)) == Lines(LastSeen(seen, contents))
    decreases |contents|
  {
    if contents != [] {
      var lines := CleanPoll(seen, contents);
      ConcatStep(Lines(seen), lines, PolledLines(contents[1..], |contents[0]|));
      PollsReadExactlyOnceFrom(contents[0], contents[1..]);
    }
  }

  lemma {:induction false} ConcatStep(before: seq<string>, lines: seq<string>, later: seq<seq<string>>)
    ensures before + Concat([lines] + later) == before + lines + Concat(later)
  {
    assert ([lines] + later)[1..] == later;
  }

  lemma {:induction false} CleanSuffixRead(seen: string, content: string)
    requires seen <= content && Clean(seen) && Clean(content) && LinesFit(content)
    ensures var chunk := From(content, |seen|);
      && ReadAll(chunk) == ReadResult(Lines(chunk), |content| - |seen|, true)
      && Lines(seen) + Lines(chunk) == Lines(content)
  {
    var chunk := From(content, |seen|);
    assert content == seen + chunk;
    LinesFitInSuffix(content, |seen|);
    CleanSuffix(content, |seen|);
    CleanReadIsComplete(chunk);
    LinesAppend(seen, chunk);
  }

  lemma {:induction false} CleanPoll(seen: string, contents: seq<string>) returns (lines: seq<string>)
    requires contents != [] && Clean(seen) && CleanGrowth(seen, contents)
    ensures PolledLines(contents, |seen|) == [lines] + PolledLines(contents[1..], |contents[0]|)
    ensures FinalOffset(contents, |seen|) == FinalOffset(contents[1..], |contents[0]|)
    ensures Lines(seen) + lines == Lines(contents[0])
  {
    var r := ReadAll(From(contents[0], |seen|));
    lines := r.lines;
    CleanSuffixRead(seen, contents[0]);
    NextPoll(contents, |seen|, r);
  }

  /** The lines returned by all the polls, one after the other, are the file so far: ending each in
      a newline gives the file back, byte for byte. */
  lemma {:induction false} PollsReadExactlyOnce(contents: seq<string>)
    requires contents != [] && CleanGrowth("", contents)
    ensures var file, lines := contents[|contents| - 1], Concat(PolledLines(contents, 0));
      && Unlines(lines) == file
      && (forall l | l in lines :: '\n' !in l)
      && lines == Lines(file)
      && FinalOffset(contents, 0) == |file|
  {
    var file := contents[|contents| - 1];
    PollsReadExactlyOnceFrom("", contents);
    LastSeenIsLast("", contents);
    var polled := Concat(PolledLines(contents, 0));
    assert Lines("") + polled == polled;
    CleanTextIsItsLines(file);
  }

  // ---------- the sidecar's main loop ----------

  function SamplesOf(lines: seq<string>): seq<Sample> {
    if |lines| == 0 then []
    else
      var init := SamplesOf(lines[..|lines| - 1]);
      match ParseLine(lines[|lines| - 1])
      case None => init
      case Some(s) => init + [s]
  }

  /** samples are what the lines at the indices of picked parse to, in order; no other line parses. */
  ghost predicate Picks(lines: seq<string>, picked: seq<nat>, samples: seq<Sample>) {
    && |picked| == |samples|
    && (forall k | 0 <= k < |picked| :: picked[k] < |lines| && ParseLine(lines[picked[k]]) == Some(samples[k]))
    && (forall j, k | 0 <= j < k < |picked| :: picked[j] < picked[k])
    && forall i | 0 <= i < |lines| && ParseLine(lines[i]).Some? :: i in picked
  }

  /** The samples of the lines: one for each line that parses, and in their order. */
  ghost predicate AreTheSamples(lines: seq<string>, samples: seq<Sample>) {
    exists picked: seq<nat> :: Picks(lines, picked, samples)
  }

  lemma {:induction false} LastLineSkipped(lines: seq<string>, picked: seq<nat>, samples: seq<Sample>)
    requires |lines| > 0 && Picks(lines, picked, samples) && ParseLine(lines[|lines| - 1]).None?
    ensures Picks(lines[..|lines| - 1], picked, samples)
  {
    forall k | 0 <= k < |picked| ensures picked[k] < |lines| - 1 {
      assert ParseLine(lines[picked[k]]).Some?;
    }
  }

  lemma {:induction false} LastLinePicked(lines: seq<string>, picked: seq<nat>, samples: seq<Sample>)
    requires |lines| > 0 && Picks(lines, picked, samples) && ParseLine(lines[|lines| - 1]).Some?
    ensures |picked| > 0 && picked[|picked| - 1] == |lines| - 1
    ensures Picks(lines[..|lines| - 1], picked[..|picked| - 1], samples[..|samples| - 1])
  {
    var n, z := |lines| - 1, |picked| - 1;
    assert n in picked;
    var k :| 0 <= k < |picked| && picked[k] == n;
    assert picked[z] < |lines|;
    forall i | 0 <= i < n && ParseLine(lines[i]).Some? ensures i in picked[..z] {
      assert i in picked;
      var j :| 0 <= j < |picked| && picked[j] == i;
      assert picked[..z][j] == i;
    }
  }

  lemma {:induction false} SkipOneMore(lines: seq<string>, line: string, picked: seq<nat>, samples: seq<Sample>)
    requires Picks(lines, picked, samples) && ParseLine(line).None?
    ensures Picks(lines + [line], picked, samples)
  {
    var more := lines + [line];
    forall i | 0 <= i < |more| && ParseLine(more[i]).Some? ensures i in picked {
      assert i < |lines| ==> more[i] == lines[i];
    }
  }

  lemma {:induction false} PickOneMore(lines: seq<string>, line: string, s: Sample, picked: seq<nat>, samples: seq<Sample>)
    requires Picks(lines, picked, samples) && ParseLine(line) == Some(s)
    ensures Picks(lines + [line], picked + [|lines|], samples + [s])
  {
    var more, picked', samples' := lines + [line], picked + [|lines|], samples + [s];
    forall i | 0 <= i < |more| && ParseLine(more[i]).Some? ensures i in picked' {
      assert i < |lines| ==> more[i] == lines[i] && i in picked;
      assert picked'[|picked|] == |lines|;
    }
    forall k | 0 <= k < |picked'| ensures picked'[k] < |more| && ParseLine(more[picked'[k]]) == Some(samples'[k]) {
      assert k < |picked| ==> picked'[k] == picked[k] && more[picked[k]] == lines[picked[k]] && samples'[k] == samples[k];
    }
  }

  lemma {:induction false} SamplesArePicked(lines: seq<string>) returns (picked: seq<nat>)
    ensures Picks(lines, picked, SamplesOf(lines))
  {
    if |lines| == 0 {
      picked := [];
    } else {
      var init, last := lines[..|lines| - 1], lines[|lines| - 1];
      picked := SamplesArePicked(init);
      assert lines == init + [last];
      match ParseLine(last)
      case None => SkipOneMore(init, last, picked, SamplesOf(init));
      case Some(s) =>
        PickOneMore(init, last, s, picked, SamplesOf(init));
        picked := picked + [|init|];
    }
  }

  /** The samples of some lines are determined, and the loop over them finds exactly these. */
  lemma {:induction false} SamplesAreExact(lines: seq<string>, samples: seq<Sample>)
    ensures AreTheSamples(lines, samples) <==> samples == SamplesOf(lines)
  {
    var found := SamplesArePicked(lines);
    if AreTheSamples(lines, samples) {
      var picked :| Picks(lines, picked, samples);
      PickedAreTheSamples(lines, picked, samples);
    }
  }

  lemma {:induction false} PickedAreTheSamples(lines: seq<string>, picked: seq<nat>, samples: seq<Sample>)
    requires Picks(lines, picked, samples)
    ensures samples == SamplesOf(lines)
  {
    if |lines| > 0 {
      if ParseLine(lines[|lines| - 1]).Some? {
        LastLinePicked(lines, picked, samples);
        PickedAreTheSamples(lines[..|lines| - 1], picked[..|picked| - 1], samples[..|samples| - 1]);
        assert samples == samples[..|samples| - 1] + [samples[|samples| - 1]];
      } else {
        LastLineSkipped(lines, picked, samples);
        PickedAreTheSamples(lines[..|lines| - 1], picked, samples);
      }
    } else {
      assert samples == [];
    }
  }

  /** A line of the result file: a sample as JMeter prints it, or anything that does not parse. */
  datatype LogLine =
    | Printed(sample: Sample, middle: seq<string>, flag: string, rest: seq<string>, eol: string)
    | Other(text: string)

  predicate WellFormed(line: LogLine) {
    match line
    case Other(text) => ParseLine(text).None?
    case Printed(sample, middle, flag, rest, eol) =>
      && InInt64(sample.timestampMs) && InInt64(sample.elapsedMs)
      && |middle| == 5 && (forall f | f in middle + [flag] + rest :: ',' !in f)
      && (sample.success <==> flag == "true")
      && (var last := ([flag] + rest)[|rest|]; last == "" || !IsEol(last[|last| - 1]))
      && forall c | c in eol :: c == '\r' || c == '\n'
  }

  function Render(line: LogLine): string {
    match line
    case Other(text) => text
    case Printed(sample, middle, flag, rest, eol) =>
      Join(LineFields(sample.timestampMs, sample.elapsedMs, middle, flag, rest), ',') + eol
  }

  function RenderAll(log: seq<LogLine>): seq<string> {
    if |log| == 0 then [] else RenderAll(log[..|log| - 1]) + [Render(log[|log| - 1])]
  }

  function Written(log: seq<LogLine>): seq<Sample> {
    if |log| == 0 then []
    else Written(log[..|log| - 1]) + match log[|log| - 1]
      case Printed(sample, _, _, _, _) => [sample]
      case Other(_) => []
  }

  /** Whatever samples were printed, successes and failures, among whatever lines that do not parse: they
      are read back, all of them and in order. */
  lemma {:induction false} PrintedSamplesAreReadBack(log: seq<LogLine>)
    requires forall line | line in log :: WellFormed(line)
    ensures SamplesOf(RenderAll(log)) == Written(log)
  {
    if |log| > 0 {
      var init, last := log[..|log| - 1], log[|log| - 1];
      assert last in log && forall line | line in init :: line in log;
      PrintedSamplesAreReadBack(init);
      match last
      case Other(_) =>
      case Printed(sample, middle, flag, rest, eol) =>
        PrintedLineParsesBack(sample.timestampMs, sample.elapsedMs, sample.success, middle, flag, rest, eol);
      assert RenderAll(log)[..|RenderAll(log)| - 1] == RenderAll(init);
    }
  }

  /** One metrics POST. */
  datatype Post = Post(aggregate: AggregateResult, elapsedSeconds: nat)

  function Posts(batches: seq<seq<string>>, elapsed: nat): seq<Post> {
    if |batches| == 0 then []
    else [Post(AggregateOf(SamplesOf(batches[0]), 1.0), elapsed + 1)] + Posts(batches[1..], elapsed + 1)
  }

  /** The posts and the offset after polling the files of contents, one after the other. */
  ghost predicate Posted(contents: seq<string>, posts: seq<Post>, offset: nat) {
    posts == Posts(PolledLines(contents, 0), 0) && offset == FinalOffset(contents, 0)
  }

  /** contents[i] is the file as the i-th poll finds it; the done marker is seen after the last. */
  method Run(contents: seq<string>) returns (posts: seq<Post>, offset: nat)
    ensures posts == Posts(PolledLines(contents, 0), 0)
    ensures offset == FinalOffset(contents, 0)
  {
    posts, offset := [], 0;
    var elapsed := 0;
    for i := 0 to |contents|
      invariant elapsed == i
      invariant Posted(contents[..i], posts, offset)
    {
      elapsed := elapsed + 1;
      OneMorePoll(contents, i, posts, offset);
      var post;
      post, offset := Poll(contents[i], offset, elapsed);
      posts := posts + [post];
    }
    assert contents[..|contents|] == contents;
  }

  lemma {:induction false} OneMorePoll(contents: seq<string>, i: nat, posts: seq<Post>, offset: nat)
    requires i < |contents| && Posted(contents[..i], posts, offset)
    ensures var r := ReadAll(From(contents[i], offset));
      Posted(contents[..i + 1], posts + [Post(AggregateOf(SamplesOf(r.lines), 1.0), i + 1)], offset + r.advance)
  {
    var r := ReadAll(From(contents[i], offset));
    assert contents[..i + 1] == contents[..i] + [contents[i]];
    PollsAppend(contents[..i], contents[i], 0, offset, r);
    PostsAppend(PolledLines(contents[..i], 0), r.lines, 0);
    OneBatchAPoll(contents[..i], 0);
  }

  lemma {:induction false} OnePoll(content: string, offset: nat, r: ReadResult)
    requires r == ReadAll(From(content, offset))
    ensures PolledLines([content], offset) == [r.lines] && FinalOffset([content], offset) == offset + r.advance
  {
    NextPoll([content], offset, r);
    assert [content][1..] == [];
  }

  lemma {:induction false} PollsAppend(contents: seq<string>, last: string, offset: nat, end: nat, r: ReadResult)
    requires end == FinalOffset(contents, offset) && r == ReadAll(From(last, end))
    ensures PolledLines(contents + [last], offset) == PolledLines(contents, offset) + [r.lines]
    ensures FinalOffset(contents + [last], offset) == end + r.advance
    decreases |contents|
  {
    if contents == [] {
      NoPollYet(last, offset, r);
    } else {
      var first := ReadAll(From(contents[0], offset));
      NextPoll(contents, offset, first);
      PollsAppend(contents[1..], last, offset + first.advance, end, r);
      SameFirstPoll(contents, last, offset, first);
      PutInFront(first.lines, PolledLines(contents[1..], offset + first.advance), r.lines);
    }
  }

  lemma {:induction false} NoPollYet(last: string, offset: nat, r: ReadResult)
    requires r == ReadAll(From(last, offset))
    ensures PolledLines([] + [last], offset) == PolledLines([], offset) + [r.lines]
    ensures FinalOffset([] + [last], offset) == offset + r.advance && FinalOffset([], offset) == offset
  {
    assert [] + [last] == [last];
    OnePoll(last, offset, r);
  }

  lemma {:induction false} PutInFront(first: seq<string>, tail: seq<seq<string>>, last: seq<string>)
    ensures [first] + (tail + [last]) == ([first] + tail) + [last]
  {
  }

  lemma {:induction false} SameFirstPoll(contents: seq<string>, last: string, offset: nat, first: ReadResult)
    requires contents != [] && first == ReadAll(From(contents[0], offset))
    ensures PolledLines(contents + [last], offset) == [first.lines] + PolledLines(contents[1..] + [last], offset + first.advance)
    ensures FinalOffset(contents + [last], offset) == FinalOffset(contents[1..] + [last], offset + first.advance)
  {
    assert (contents + [last])[1..] == contents[1..] + [last];
    NextPoll(contents + [last], offset, first);
  }

  lemma {:induction false} PostsAppend(batches: seq<seq<string>>, last: seq<string>, elapsed: nat)
    ensures Posts(batches + [last], elapsed)
         == Posts(batches, elapsed) + [Post(AggregateOf(SamplesOf(last), 1.0), elapsed + |batches| + 1)]
    decreases |batches|
  {
    if |batches| == 0 {
      assert batches + [last] == [last] && [last][1..] == [];
    } else {
      assert (batches + [last])[1..] == batches[1..] + [last];
      PostsAppend(batches[1..], last, elapsed + 1);
    }
  }

  /** The body of main's loop, once. */
  method Poll(content: string, offset: nat, elapsed: nat) returns (post: Post, newOffset: nat)
    ensures var r := ReadAll(From(content, offset));
      newOffset == offset + r.advance && post == Post(AggregateOf(SamplesOf(r.lines), 1.0), elapsed)
  {
    var lines, ok;
    lines, newOffset, ok := ReadNewLines(content, offset);
    var samples := ParseAll(lines);
    var aggregate := Aggregate(samples, 1.0);
    post := Post(aggregate, elapsed);
  }

  lemma {:induction false} NextPoll(contents: seq<string>, offset: nat, r: ReadResult)
    requires contents != [] && r == ReadAll(From(contents[0], offset))
    ensures PolledLines(contents, offset) == [r.lines] + PolledLines(contents[1..], offset + r.advance)
    ensures FinalOffset(contents, offset) == FinalOffset(contents[1..], offset + r.advance)
  {
  }

  method ParseAll(lines: seq<string>) returns (samples: seq<Sample>)
    ensures samples == SamplesOf(lines)
  {
    samples := [];
    for i := 0 to |lines|
      invariant samples == SamplesOf(lines[..i])
    {
      assert lines[..i + 1][..i] == lines[..i];
      match ParseLine(lines[i])
      case None =>
      case Some(s) => samples := samples + [s];
    }
    assert lines[..|lines|] == lines;
  }

  lemma {:induction false} SamplesAppend(a: seq<string>, b: seq<string>)
    ensures SamplesOf(a + b) == SamplesOf(a) + SamplesOf(b)
  {
    if b == [] {
      assert a + b == a;
    } else {
      assert (a + b)[..|a + b| - 1] == a + b[..|b| - 1];
      SamplesAppend(a, b[..|b| - 1]);
    }
  }

  function SampleBatches(batches: seq<seq<string>>): (bs: seq<seq<Sample>>)
    ensures |bs| == |batches|
  {
    if |batches| == 0 then [] else [SamplesOf(batches[0])] + SampleBatches(batches[1..])
  }

  function Aggregates(posts: seq<Post>): seq<AggregateResult> {
    if |posts| == 0 then [] else [posts[0].aggregate] + Aggregates(posts[1..])
  }

  lemma {:induction false} PostsCarryEverySample(batches: seq<seq<string>>, elapsed: nat)
    ensures Flatten(SampleBatches(batches)) == SamplesOf(Concat(batches))
    ensures Aggregates(Posts(batches, elapsed)) == PerBatch(SampleBatches(batches))
    ensures |Posts(batches, elapsed)| == |batches|
    ensures forall i | 0 <= i < |batches| :: Posts(batches, elapsed)[i].elapsedSeconds == elapsed + i + 1
  {
    if batches != [] {
      PostsCarryEverySample(batches[1..], elapsed + 1);
      SamplesAppend(batches[0], Concat(batches[1..]));
      assert Posts(batches, elapsed)[1..] == Posts(batches[1..], elapsed + 1);
    }
  }

  /** End to end: for a cleanly growing file, the metrics posted over a whole run recombine to the
      aggregate of the samples of the final file -- one for each of its lines that parses -- exactly when
      the sums they were averaged from add up within an int64. */
  lemma {:induction false} PostedMetricsDescribeTheFile(contents: seq<string>, samples: seq<Sample>)
    requires contents != [] && CleanGrowth("", contents)
    requires AreTheSamples(Lines(contents[|contents| - 1]), samples)
    ensures var polled := PolledLines(contents, 0);
      Recombine(Aggregates(Posts(polled, 0))) == AggregateOf(samples, |contents| as real)
      <==> InInt64(SumWrapped(SampleBatches(polled)))
  {
    var batches := PolledLines(contents, 0);
    PollsReadExactlyOnce(contents);
    SamplesAreExact(Lines(contents[|contents| - 1]), samples);
    PostsCarryEverySample(batches, 0);
    BatchesRecombine(SampleBatches(batches));
    OneBatchAPoll(contents, 0);
  }

  /** Each post is about the samples of the lines that its poll has read. */
  lemma {:induction false} PostIsOfItsLines(batches: seq<seq<string>>, elapsed: nat, i: nat, samples: seq<Sample>)
    requires i < |batches| && AreTheSamples(batches[i], samples)
    ensures i < |Posts(batches, elapsed)|
    ensures Posts(batches, elapsed)[i] == Post(AggregateOf(samples, 1.0), elapsed + i + 1)
  {
    SamplesAreExact(batches[i], samples);
    if i > 0 {
      PostIsOfItsLines(batches[1..], elapsed + 1, i - 1, samples);
    }
  }

  lemma {:induction false} OneBatchAPoll(contents: seq<string>, offset: nat)
    ensures |PolledLines(contents, offset)| == |contents|
  {
    if contents != [] {
      OneBatchAPoll(contents[1..], offset + ReadAll(From(contents[0], offset)).advance);
    }
  }
}
