/**
  Forwarding a stream in whole lines: `wrapStream` in src/bootstrap-fork.ts.
 */
module StreamWrapper {
  import opened Wrappers

  const MAX_STREAM_BUFFER_LENGTH: nat := 0x10_0000

  /** `lastIndexOf('\n')` */
  function LastNewline(s: string): (r: int)
    ensures -1 <= r < |s|
    ensures r >= 0 ==> s[r] == '\n'
    ensures forall i :: r < i < |s| ==> s[i] != '\n'
  {
    LastNewlineBefore(s, |s|)
  }

  function LastNewlineBefore(s: string, n: nat): (r: int)
    requires n <= |s|
    ensures -1 <= r < n
    ensures r >= 0 ==> s[r] == '\n'
    ensures forall i :: r < i < n ==> s[i] != '\n'
  {
    if n == 0 then -1 else if s[n - 1] == '\n' then n - 1 else LastNewlineBefore(s, n - 1)
  }

  /** What is logged at once: up to a newline, which is dropped, or a buffer that grew too large. */
  datatype Piece = Piece(text: string, cut: bool)

  datatype State = State(buf: string, emitted: seq<Piece>)

  function Written(s: State, chunk: string): State {
    var buf := s.buf + chunk;
    if |buf| > MAX_STREAM_BUFFER_LENGTH then State([], s.emitted + [Piece(buf, true)])
    else
      var eol := LastNewline(buf);
      if eol == -1 then State(buf, s.emitted) else State(buf[eol + 1..], s.emitted + [Piece(buf[..eol], false)])
  }

  function WrittenAll(s: State, chunks: seq<string>): State
    decreases |chunks|
  {
    if chunks == [] then s else WrittenAll(Written(s, chunks[0]), chunks[1..])
  }

  class StreamWrapper {
    var buf: string
    var emitted: seq<Piece>
    /** What the original `write` got. */
    var passed: seq<string>

    constructor ()
      ensures buf == "" && emitted == [] && passed == []
    {
      buf, emitted, passed := "", [], [];
    }

    function Snapshot(): State
      reads this
    {
      State(buf, emitted)
    }

    method Write(chunk: string)
      modifies this
      ensures Snapshot() == Written(old(Snapshot()), chunk) && passed == old(passed) + [chunk]
    {
      buf := buf + chunk;
      var overflow := |buf| > MAX_STREAM_BUFFER_LENGTH;
      var eol := if overflow then |buf| else LastNewline(buf);
      assert buf[..|buf|] == buf;
      if eol != -1 {
        emitted := emitted + [Piece(buf[..eol], overflow)];
        buf := if eol + 1 <= |buf| then buf[eol + 1..] else "";
      }
      passed := passed + [chunk];
    }
  }

  // ------------------------------------------------------------------------
  // Nothing is lost.
  // ------------------------------------------------------------------------

  function Original(p: Piece): string {
    if p.cut then p.text else p.text + ['\n']
  }

  /** The input that the emitted pieces came from. */
  function Covered(ps: seq<Piece>): string {
    if ps == [] then [] else Covered(ps[..|ps|-1]) + Original(ps[|ps|-1])
  }

  lemma WriteConserves(s: State, chunk: string)
    ensures Covered(Written(s, chunk).emitted) + Written(s, chunk).buf == Covered(s.emitted) + s.buf + chunk
  {
    var buf, s' := s.buf + chunk, Written(s, chunk);
    if s'.emitted != s.emitted {
      var p := s'.emitted[|s.emitted|];
      assert s'.emitted[..|s.emitted|] == s.emitted;
      assert Original(p) + s'.buf == buf;
      Assoc(Covered(s.emitted), Original(p), s'.buf);
    }
    Assoc(Covered(s.emitted), s.buf, chunk);
  }

  predicate NoNewline(s: string) {
    forall i :: 0 <= i < |s| ==> s[i] != '\n'
  }

  /** Between writes, the buffer is a short unfinished line. */
  predicate Short(s: State) {
    NoNewline(s.buf) && |s.buf| <= MAX_STREAM_BUFFER_LENGTH
  }

  lemma NoNewlineAfterLast(s: string, e: int)
    requires -1 <= e < |s| && forall i :: e < i < |s| ==> s[i] != '\n'
    ensures NoNewline(s[e + 1..])
  {
  }

  lemma WriteKeepsShort(s: State, chunk: string)
    ensures Short(Written(s, chunk))
  {
    NoNewlineAfterLast(s.buf + chunk, LastNewline(s.buf + chunk));
  }

  /** For any sequence of writes: pieces and buffer are the input, and the buffer stays short. */
  lemma {:induction false} InputIsConserved(s: State, chunks: seq<string>)
    requires Short(s)
    ensures var s' := WrittenAll(s, chunks);
            Covered(s'.emitted) + s'.buf == (Covered(s.emitted) + s.buf) + Concat(chunks) && Short(s')
    decreases |chunks|
  {
    if chunks == [] {
      assert (Covered(s.emitted) + s.buf) + [] == Covered(s.emitted) + s.buf;
    } else {
      WriteConserves(s, chunks[0]);
      WriteKeepsShort(s, chunks[0]);
      InputIsConserved(Written(s, chunks[0]), chunks[1..]);
      Assoc(Covered(s.emitted) + s.buf, chunks[0], Concat(chunks[1..]));
    }
  }

  // ------------------------------------------------------------------------
  // Chunks do not matter, unless the buffer overflows.
  // ------------------------------------------------------------------------

  /** The input up to and including its last newline, and the rest. */
  function Lines(input: string): string {
    input[..LastNewline(input) + 1]
  }

  function Unfinished(input: string): string {
    input[LastNewline(input) + 1..]
  }

  predicate NothingCut(ps: seq<Piece>) {
    forall p | p in ps :: !p.cut
  }

  /** Every line fits, together with the chunk that is being written. */
  predicate Fits(input: string, chunks: seq<string>)
    decreases |chunks|
  {
    chunks == [] ||
    (|Unfinished(input)| + |chunks[0]| <= MAX_STREAM_BUFFER_LENGTH && Fits(input + chunks[0], chunks[1..]))
  }

  lemma LastIsUnique(s: string, r: int)
    requires -1 <= r < |s| && (r >= 0 ==> s[r] == '\n') && forall i :: r < i < |s| ==> s[i] != '\n'
    ensures LastNewline(s) == r
  {
  }

  lemma LastNewlineAppend(a: string, b: string)
    ensures LastNewline(a + b) == if LastNewline(b) == -1 then LastNewline(a) else |a| + LastNewline(b)
  {
    LastIsUnique(a + b, if LastNewline(b) == -1 then LastNewline(a) else |a| + LastNewline(b));
  }

  lemma LinesOfWhole(lines: string, rest: string)
    requires lines != "" ==> lines[|lines|-1] == '\n'
    ensures LastNewline(lines + rest) == |lines| + LastNewline(rest)
  {
    LastIsUnique(lines, |lines| - 1);
    LastNewlineAppend(lines, rest);
  }

  lemma CutAt(a: string, b: string, n: nat)
    requires n <= |b|
    ensures (a + b)[..|a| + n] == a + b[..n] && (a + b)[|a| + n..] == b[n..]
  {
  }

  lemma CoveredSnoc(ps: seq<Piece>, p: Piece)
    ensures Covered(ps + [p]) == Covered(ps) + Original(p)
  {
    assert (ps + [p])[..|ps|] == ps;
  }

  lemma LinesEnd(input: string)
    ensures Lines(input) != "" ==> Lines(input)[|Lines(input)|-1] == '\n'
    ensures input == Lines(input) + Unfinished(input)
  {
  }

  lemma SameSplit(s: State, chunk: string, input: string)
    requires s.buf == Unfinished(input) && |s.buf + chunk| <= MAX_STREAM_BUFFER_LENGTH
    requires Covered(s.emitted) == Lines(input)
    ensures Written(s, chunk).buf == Unfinished(input + chunk)
    ensures Covered(Written(s, chunk).emitted) == Lines(input + chunk)
  {
    LinesEnd(input);
    var lines, rest := Lines(input), s.buf + chunk;
    Assoc(lines, s.buf, chunk);
    SplitOfWhole(s, lines, chunk, rest);
  }

  /** What a write does to a buffer that ends its last line at `e`, without overflow. */
  function CutOff(emitted: seq<Piece>, rest: string, e: int): State
    requires -1 <= e < |rest|
  {
    if e == -1 then State(rest, emitted) else State(rest[e + 1..], emitted + [Piece(rest[..e], false)])
  }

  lemma CutSplits(emitted: seq<Piece>, rest: string, e: int)
    requires -1 <= e < |rest| && (e >= 0 ==> rest[e] == '\n')
    ensures CutOff(emitted, rest, e).buf == rest[e + 1..]
    ensures Covered(CutOff(emitted, rest, e).emitted) == Covered(emitted) + rest[..e + 1]
  {
    if e == -1 {
      NothingCutOff(Covered(emitted), rest);
    } else {
      LineBack(rest, e);
      CoveredSnoc(emitted, Piece(rest[..e], false));
    }
  }

  lemma LineBack(rest: string, e: nat)
    requires e < |rest| && rest[e] == '\n'
    ensures rest[..e] + ['\n'] == rest[..e + 1]
  {
  }

  lemma NothingCutOff(lines: string, rest: string)
    ensures rest[0..] == rest && lines + rest[..0] == lines
  {
  }

  lemma SplitOfWhole(s: State, lines: string, chunk: string, rest: string)
    requires rest == s.buf + chunk && |rest| <= MAX_STREAM_BUFFER_LENGTH
    requires lines == Covered(s.emitted) && (lines != "" ==> lines[|lines|-1] == '\n')
    ensures Written(s, chunk).buf == Unfinished(lines + rest)
    ensures Covered(Written(s, chunk).emitted) == Lines(lines + rest)
  {
    LinesOfWhole(lines, rest);
    CutAt(lines, rest, LastNewline(rest) + 1);
    CutSplits(s.emitted, rest, LastNewline(rest));
    assert Written(s, chunk) == CutOff(s.emitted, rest, LastNewline(rest));
  }

  /**
    Exactly if every line fits, nothing is cut, and then what was logged is the input up to
    its last newline, however it was cut into chunks.
   */
  lemma {:induction false} ChunksDoNotMatter(s: State, chunks: seq<string>, input: string)
    requires s.buf == Unfinished(input) && Covered(s.emitted) == Lines(input) && NothingCut(s.emitted)
    ensures var s' := WrittenAll(s, chunks);
            && (Fits(input, chunks) <==> NothingCut(s'.emitted))
            && (Fits(input, chunks) ==>
                  Covered(s'.emitted) == Lines(input + Concat(chunks)) && s'.buf == Unfinished(input + Concat(chunks)))
    decreases |chunks|
  {
    if chunks == [] {
      assert input + [] == input;
    } else {
      var s1 := Written(s, chunks[0]);
      assert input + chunks[0] + Concat(chunks[1..]) == input + (chunks[0] + Concat(chunks[1..]));
      if |s.buf| + |chunks[0]| <= MAX_STREAM_BUFFER_LENGTH {
        SameSplit(s, chunks[0], input);
        ChunksDoNotMatter(s1, chunks[1..], input + chunks[0]);
      } else {
        assert s1.emitted[|s.emitted|].cut;
        EmittedGrows(s1, chunks[1..]);
        assert s1.emitted[|s.emitted|] in WrittenAll(s1, chunks[1..]).emitted;
      }
    }
  }

  lemma {:induction false} EmittedGrows(s: State, chunks: seq<string>)
    ensures s.emitted <= WrittenAll(s, chunks).emitted
    decreases |chunks|
  {
    if chunks != [] {
      EmittedGrows(Written(s, chunks[0]), chunks[1..]);
    }
  }

  /** Two ways to cut the same input, neither of which overflows, log the same text, whatever was logged before. */
  lemma SameInputSameLog(s: State, input: string, a: seq<string>, b: seq<string>)
    requires s.buf == Unfinished(input) && Covered(s.emitted) == Lines(input) && NothingCut(s.emitted)
    requires Concat(a) == Concat(b) && Fits(input, a) && Fits(input, b)
    ensures Covered(WrittenAll(s, a).emitted) == Covered(WrittenAll(s, b).emitted)
    ensures WrittenAll(s, a).buf == WrittenAll(s, b).buf
  {
    ChunksDoNotMatter(s, a, input);
    ChunksDoNotMatter(s, b, input);
  }

  /** A line that is too long is logged at once, before its end is there. */
  lemma LongLineIsCut(line: string)
    requires NoNewline(line) && |line| > MAX_STREAM_BUFFER_LENGTH
    ensures WrittenAll(State("", []), [line]) == State("", [Piece(line, true)])
  {
    assert "" + line == line && [line][1..] == [];
  }

  /** There are such lines. */
  lemma OneLongLine() returns (line: string)
    ensures NoNewline(line) && WrittenAll(State("", []), [line]) == State("", [Piece(line, true)])
  {
    line := seq(MAX_STREAM_BUFFER_LENGTH + 1, _ => 'a');
    LongLineIsCut(line);
  }
}
