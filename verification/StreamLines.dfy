/**
 Collecting an event stream that arrives in arbitrary fragments
 (tools/agent_study_codex_runner.py): bytes are kept as they come, lines are put together again
 and parsed, and a byte budget bounds the trace.
 */
module StreamLines {
  import opened Wrappers

  const NEWLINE: Byte := 10

  // ----- what the lines of a byte string are -----

  function LineEnd(b: Bytes): (k: nat)
    ensures k <= |b| && NEWLINE !in b[..k] && (k < |b| ==> b[k] == NEWLINE)
  {
    if b == [] || b[0] == NEWLINE then 0
    else
      var k := 1 + LineEnd(b[1..]);
      assert b[..k] == [b[0]] + b[1..][..k - 1];
      k
  }

  /** The lines that end in a newline, without it. */
  function CompleteLines(b: Bytes): seq<Bytes> {
    var k := LineEnd(b);
    if k == |b| then [] else [b[..k]] + CompleteLines(b[k + 1..])
  }

  /** What follows the last newline. */
  function Tail(b: Bytes): Bytes {
    var k := LineEnd(b);
    if k == |b| then b else Tail(b[k + 1..])
  }

  function Joined(lines: seq<Bytes>, tail: Bytes): Bytes {
    if lines == [] then tail else lines[0] + [NEWLINE] + Joined(lines[1..], tail)
  }

  lemma {:induction false} LineEndIsAt(line: Bytes, rest: Bytes)
    requires NEWLINE !in line
    ensures LineEnd(line + [NEWLINE] + rest) == |line|
  {
    if line != [] {
      LineEndIsAt(line[1..], rest);
      assert (line + [NEWLINE] + rest)[1..] == line[1..] + [NEWLINE] + rest;
    }
  }

  /** Splitting is the inverse of joining. */
  lemma {:induction false} LinesJoinBack(b: Bytes)
    ensures Joined(CompleteLines(b), Tail(b)) == b
    ensures NEWLINE !in Tail(b) && forall l <- CompleteLines(b) :: NEWLINE !in l
  {
    var k := LineEnd(b);
    if k < |b| {
      LinesJoinBack(b[k + 1..]);
      assert b == b[..k] + [NEWLINE] + b[k + 1..];
      assert CompleteLines(b)[1..] == CompleteLines(b[k + 1..]);
    } else {
      assert b[..k] == b;
    }
  }

  /** There is only one way to cut bytes at newlines. */
  lemma {:induction false} OnlySplit(lines: seq<Bytes>, tail: Bytes)
    requires NEWLINE !in tail && forall l <- lines :: NEWLINE !in l
    ensures CompleteLines(Joined(lines, tail)) == lines && Tail(Joined(lines, tail)) == tail
  {
    var b := Joined(lines, tail);
    if lines == [] {
      assert forall i :: 0 <= i < |b| ==> b[i] in tail;
    } else {
      var rest := Joined(lines[1..], tail);
      OnlySplit(lines[1..], tail);
      LineEndIsAt(lines[0], rest);
      assert b[..|lines[0]|] == lines[0] && b[|lines[0]| + 1..] == rest;
    }
  }

  lemma FirstThenBoth(line: Bytes, s: seq<Bytes>, t: seq<Bytes>)
    ensures [line] + (s + t) == [line] + s + t
  {}

  lemma FirstLineSplit(line: Bytes, rest: Bytes)
    requires NEWLINE !in line
    ensures CompleteLines(line + [NEWLINE] + rest) == [line] + CompleteLines(rest)
    ensures Tail(line + [NEWLINE] + rest) == Tail(rest)
  {
    var b := line + [NEWLINE] + rest;
    LineEndIsAt(line, rest);
    assert b[..|line|] == line && b[|line| + 1..] == rest;
  }

  /** Splitting what has come so far and then what is left over with the next piece splits it all. */
  lemma {:induction false} SplitInPieces(a: Bytes, b: Bytes)
    ensures CompleteLines(a + b) == CompleteLines(a) + CompleteLines(Tail(a) + b)
    ensures Tail(a + b) == Tail(Tail(a) + b)
    decreases |a|
  {
    var k := LineEnd(a);
    if k < |a| {
      var line, rest := a[..k], a[k + 1..];
      assert a == line + [NEWLINE] + rest;
      assert a + b == line + [NEWLINE] + (rest + b);
      FirstLineSplit(line, rest);
      FirstLineSplit(line, rest + b);
      SplitInPieces(rest, b);
      FirstThenBoth(line, CompleteLines(rest), CompleteLines(Tail(rest) + b));
    } else {
      assert [] + CompleteLines(a + b) == CompleteLines(a + b);
    }
  }

  // ----- what is recorded of the lines -----

  predicate IsSpace(b: Byte) { b == 32 || 9 <= b <= 13 }

  predicate IsBlank(line: Bytes) { forall b <- line :: IsSpace(b) }

  /** The events of the lines that are not blank, or `None` if one of those does not parse. */
  function Recorded<E>(lines: seq<Bytes>, parse: Bytes -> Option<E>): Option<seq<E>> {
    if lines == [] then Some([])
    else
      var front, last := Recorded(lines[..|lines| - 1], parse), lines[|lines| - 1];
      if front.None? || IsBlank(last) then front
      else if parse(last).None? then None
      else Some(front.value + [parse(last).value])
  }

  lemma {:induction false} RecordedInPieces<E>(a: seq<Bytes>, b: seq<Bytes>, parse: Bytes -> Option<E>)
    ensures Recorded(a + b, parse) ==
            if Recorded(a, parse).None? || Recorded(b, parse).None? then None
            else Some(Recorded(a, parse).value + Recorded(b, parse).value)
    decreases b
  {
    if b == [] {
      assert a + b == a;
      if Recorded(a, parse).Some? { assert Recorded(a, parse).value + [] == Recorded(a, parse).value; }
    } else {
      var n, whole := |b| - 1, a + b;
      RecordedInPieces(a, b[..n], parse);
      assert whole[..|whole| - 1] == a + b[..n] && whole[|whole| - 1] == b[n];
      if Recorded(whole, parse).Some? && !IsBlank(b[n]) {
        var x := parse(b[n]).value;
        assert Recorded(a, parse).value + (Recorded(b[..n], parse).value + [x])
            == (Recorded(a, parse).value + Recorded(b[..n], parse).value) + [x];
      }
    }
  }

  // ----- the collection as a whole -----

  /** What one look at the pipe gives: nothing yet, or some bytes. */
  datatype Arrival = Quiet | Fragment(data: Bytes)

  /** Why the program stops looking: the pipe is at its end or idle after exit, or time is up. */
  datatype Ending = Closed | TimedOut

  datatype Collected<+E> = Collected(raw: Bytes, events: seq<E>, timedOut: bool)

  function Arrived(arrivals: seq<Arrival>): Bytes {
    if arrivals == [] then []
    else
      var last := arrivals[|arrivals| - 1];
      Arrived(arrivals[..|arrivals| - 1]) + (if last.Fragment? then last.data else [])
  }

  /** The lines that count: an unfinished last line does unless time ran out. */
  function LinesRead(raw: Bytes, ending: Ending): seq<Bytes> {
    CompleteLines(raw) + (if ending == Closed then [Tail(raw)] else [])
  }

  /** What a collection gives, in terms of the bytes alone. */
  function Collection<E>(raw: Bytes, ending: Ending, parse: Bytes -> Option<E>, maxBytes: nat): Option<Collected<E>> {
    if |raw| > maxBytes then None
    else
      match Recorded(LinesRead(raw, ending), parse)
      case None => None
      case Some(events) => Some(Collected(raw, events, ending == TimedOut))
  }

  lemma {:induction false} ArrivedGrows(arrivals: seq<Arrival>, i: nat)
    requires i <= |arrivals|
    ensures Arrived(arrivals[..i]) <= Arrived(arrivals)
    decreases |arrivals| - i
  {
    if i == |arrivals| {
      assert arrivals[..i] == arrivals;
    } else {
      ArrivedGrows(arrivals, i + 1);
      assert arrivals[..i + 1][..i] == arrivals[..i];
    }
  }

  /** Once a complete line does not parse, nothing that follows can make up for it. */
  lemma BadLineStays<E>(seen: Bytes, whole: Bytes, ending: Ending, parse: Bytes -> Option<E>)
    requires seen <= whole && Recorded(CompleteLines(seen), parse).None?
    ensures Recorded(CompleteLines(whole), parse).None? && Recorded(LinesRead(whole, ending), parse).None?
  {
    var more := whole[|seen|..];
    assert whole == seen + more;
    SplitInPieces(seen, more);
    RecordedInPieces(CompleteLines(seen), CompleteLines(Tail(seen) + more), parse);
    RecordedInPieces(CompleteLines(whole), if ending == Closed then [Tail(whole)] else [], parse);
    assert CompleteLines(whole) + [] == CompleteLines(whole);
  }

  // ----- the collection as the program performs it -----

  /** Appends the event of a line that is not blank; false if the line does not parse. */
  method RecordEvent<E>(events: seq<E>, line: Bytes, parse: Bytes -> Option<E>) returns (ok: bool, after: seq<E>)
    ensures var r := Recorded([line], parse);
            ok == r.Some? && after == if r.Some? then events + r.value else events
  {
    assert [line][..0] == [];
    if forall b <- line :: IsSpace(b) { return true, events; }
    match parse(line)
    case None => return false, events;
    case Some(event) => return true, events + [event];
  }

  function Appended<E>(events: seq<E>, more: Option<seq<E>>): Option<seq<E>> {
    if more.None? then None else Some(events + more.value)
  }

  lemma AppendedInPieces<E>(events: seq<E>, a: seq<Bytes>, b: seq<Bytes>, parse: Bytes -> Option<E>)
    ensures var first := Recorded(a, parse);
            Appended(events, Recorded(a + b, parse)) ==
            if first.None? then None else Appended(events + first.value, Recorded(b, parse))
  {
    RecordedInPieces(a, b, parse);
    var r, rs := Recorded(a, parse), Recorded(b, parse);
    if r.Some? && rs.Some? { assert events + (r.value + rs.value) == (events + r.value) + rs.value; }
  }

  /** Takes the complete lines off the buffer; false at the first that does not parse. */
  method DrainBuffer<E>(pending: Bytes, events: seq<E>, parse: Bytes -> Option<E>)
      returns (ok: bool, buffer: Bytes, after: seq<E>)
    ensures var r := Appended(events, Recorded(CompleteLines(pending), parse));
            ok == r.Some? && (ok ==> after == r.value && buffer == Tail(pending))
  {
    buffer, after := pending, events;
    while NEWLINE in buffer
      invariant Tail(pending) == Tail(buffer)
      invariant Appended(events, Recorded(CompleteLines(pending), parse))
             == Appended(after, Recorded(CompleteLines(buffer), parse))
      decreases |buffer|
    {
      var k := LineEnd(buffer);
      assert k < |buffer| by { assert buffer[..|buffer|] == buffer; }
      AppendedInPieces(after, [buffer[..k]], CompleteLines(buffer[k + 1..]), parse);
      ok, after := RecordEvent(after, buffer[..k], parse);
      if !ok { return; }
      buffer := buffer[k + 1..];
    }
    assert LineEnd(buffer) == |buffer|;
    assert after + [] == after;
    ok := true;
  }

  /** The whole collection; `None` is the exception for a bad line or an exceeded budget. */
  method CollectStream<E>(arrivals: seq<Arrival>, ending: Ending, parse: Bytes -> Option<E>, maxBytes: nat)
      returns (r: Option<Collected<E>>, trace: Bytes)
    ensures r == Collection(Arrived(arrivals), ending, parse, maxBytes)
    ensures trace <= Arrived(arrivals) && |trace| <= maxBytes
    ensures r.Some? ==> trace == Arrived(arrivals)
    ensures r.None? ==> || (|trace| == maxBytes < |Arrived(arrivals)|)
                        || Recorded(CompleteLines(trace), parse).None?
                        || (trace == Arrived(arrivals) && Recorded(LinesRead(trace, ending), parse).None?)
  {
    ghost var whole := Arrived(arrivals);
    var raw: Bytes, buffer: Bytes, events: seq<E> := [], [], [];
    trace := [];
    for i := 0 to |arrivals|
      invariant raw == trace == Arrived(arrivals[..i]) && |raw| <= maxBytes
      invariant buffer == Tail(raw) && Recorded(CompleteLines(raw), parse) == Some(events)
    {
      assert arrivals[..i + 1][..i] == arrivals[..i];
      ArrivedGrows(arrivals, i + 1);
      if arrivals[i].Quiet? { continue; }
      var fragment := arrivals[i].data;
      if |raw| + |fragment| > maxBytes {
        trace := trace + fragment[..maxBytes - |raw|];
        return None, trace;
      }
      trace := trace + fragment;
      SplitInPieces(raw, fragment);
      RecordedInPieces(CompleteLines(raw), CompleteLines(buffer + fragment), parse);
      raw := raw + fragment;
      var ok;
      ok, buffer, events := DrainBuffer(buffer + fragment, events, parse);
      if !ok {
        BadLineStays(raw, whole, ending, parse);
        return None, trace;
      }
    }
    assert arrivals[..|arrivals|] == arrivals;
    if ending == Closed {
      RecordedInPieces(CompleteLines(raw), [buffer], parse);
      var ok;
      ok, events := RecordEvent(events, buffer, parse);
      if !ok { return None, trace; }
    }
    assert CompleteLines(raw) + [] == CompleteLines(raw);
    r := Some(Collected(raw, events, ending == TimedOut));
  }

  // ----- consequences -----

  /** What is recorded are the parsed lines that are not blank, one each and in order. */
  lemma {:induction false} EventsAreLines<E>(lines: seq<Bytes>, parse: Bytes -> Option<E>) returns (at: seq<nat>)
    requires Recorded(lines, parse).Some?
    ensures |at| == |Recorded(lines, parse).value|
    ensures forall k :: 0 <= k < |at| ==>
              (at[k] < |lines| && !IsBlank(lines[at[k]])
               && parse(lines[at[k]]) == Some(Recorded(lines, parse).value[k]))
    ensures forall j, k :: 0 <= j < k < |at| ==> at[j] < at[k]
    ensures forall i :: 0 <= i < |lines| ==> i in at || IsBlank(lines[i])
  {
    at := [];
    if lines != [] {
      var n := |lines| - 1;
      at := EventsAreLines(lines[..n], parse);
      if !IsBlank(lines[n]) { at := at + [n]; }
    }
  }

  /** A budget that fits changes nothing, and neither does a newline at the end of a finished stream. */
  lemma FinalNewlineIsOptional<E>(raw: Bytes, parse: Bytes -> Option<E>)
    ensures Recorded(LinesRead(raw + [NEWLINE], Closed), parse) == Recorded(LinesRead(raw, Closed), parse)
    ensures Recorded(LinesRead(raw + [NEWLINE], TimedOut), parse) == Recorded(LinesRead(raw, Closed), parse)
  {
    LinesJoinBack(raw);
    SplitInPieces(raw, [NEWLINE]);
    OnlySplit([Tail(raw)], []);
    assert Joined([Tail(raw)], []) == Tail(raw) + [NEWLINE] by { assert Joined([], []) == []; }
    assert LinesRead(raw + [NEWLINE], TimedOut) == LinesRead(raw, Closed);
    var empty: seq<Bytes> := [[]];
    RecordedInPieces(LinesRead(raw, Closed), empty, parse);
    assert LinesRead(raw + [NEWLINE], Closed) == LinesRead(raw, Closed) + empty;
    assert Recorded(empty, parse) == Some([]) by { assert empty[..0] == [] && IsBlank(empty[0]); }
  }

  lemma {:induction false} RecordedIff<E>(lines: seq<Bytes>, parse: Bytes -> Option<E>)
    ensures Recorded(lines, parse).Some? <==> forall line <- lines :: IsBlank(line) || parse(line).Some?
  {
    if lines != [] {
      var front, last := lines[..|lines| - 1], lines[|lines| - 1];
      RecordedIff(front, parse);
      assert lines == front + [last];
    }
  }

  /** Only spaces, tabs, line and page breaks. */
  predicate IsWhite(line: Bytes) { forall b <- line :: b in [9, 10, 11, 12, 13, 32] }

  lemma BlankIsWhite(line: Bytes)
    ensures IsBlank(line) <==> IsWhite(line)
  {}

  /** One event for each line that is not white, in order. */
  ghost predicate AreEventsOf<E(!new)>(events: seq<E>, lines: seq<Bytes>, parse: Bytes -> Option<E>, at: seq<nat>) {
    && |at| == |events|
    && (forall k :: 0 <= k < |at| ==>
          at[k] < |lines| && !IsWhite(lines[at[k]]) && parse(lines[at[k]]) == Some(events[k]))
    && (forall j, k :: 0 <= j < k < |at| ==> at[j] < at[k])
    && (forall i :: 0 <= i < |lines| ==> i in at || IsWhite(lines[i]))
  }

  /**
   What a collection gives for bytes that are these lines and this tail: it succeeds iff the bytes
   fit and every line that counts is white or parses.  The tail counts unless time ran out.
   */
  lemma CollectionIs<E(!new)>(lines: seq<Bytes>, tail: Bytes, ending: Ending, parse: Bytes -> Option<E>, maxBytes: nat)
      returns (at: seq<nat>)
    requires NEWLINE !in tail && forall line <- lines :: NEWLINE !in line
    ensures var raw, counted := Joined(lines, tail), if ending == Closed then lines + [tail] else lines;
            var r := Collection(raw, ending, parse, maxBytes);
            && (r.Some? <==> |raw| <= maxBytes && forall line <- counted :: IsWhite(line) || parse(line).Some?)
            && (r.Some? ==>
                  && r.value.raw == raw && (r.value.timedOut <==> ending == TimedOut)
                  && AreEventsOf(r.value.events, counted, parse, at))
  {
    var raw, counted := Joined(lines, tail), if ending == Closed then lines + [tail] else lines;
    OnlySplit(lines, tail);
    assert LinesRead(raw, ending) == counted;
    RecordedIff(counted, parse);
    forall line: Bytes ensures IsBlank(line) <==> IsWhite(line) { BlankIsWhite(line); }
    at := [];
    if Recorded(counted, parse).Some? { at := EventsAreLines(counted, parse); }
  }
}
