/** COPY runs: what the stream loop offers, counts, inserts and answers (section 55.2.6), for every list of messages. */
module CopyLaws {
  import opened BigEndian
  import opened Errors
  import opened Inputs
  import opened Responses
  import opened Session
  import opened CopyFrames
  import opened Frontend
  import MessageLaws
  import QueryLaws
  import Requests

  // The messages of a COPY.

  predicate IsCopyData(ms: seq<Message>) { ms != [] && ms[0].Other? && ms[0].t == 'd' as int }
  predicate IsCopyDone(ms: seq<Message>) { ms != [] && ms[0].Other? && ms[0].t == 'c' as int }

  /** A line of data is next, not an end marker. */
  predicate AtLine(ms: seq<Message>) { IsCopyData(ms) && !IsEndMarker(TrimRight(ms[0].payload)) }

  /** The lines up to the first message that is none. */
  function {:tailrecursion false} Lines(ms: seq<Message>): (lines: seq<seq<GoString>>)
    ensures |lines| <= |ms|
  {
    if AtLine(ms) then [Split(TrimRight(ms[0].payload))] + Lines(ms[1..]) else []
  }

  /** What a stream that has come to its end in front of `ms` leaves unread: CopyDone is taken, an end marker is taken
      with a CopyDone behind it if there is one, and any other message stays. */
  function AfterEnd(ms: seq<Message>): (left: seq<Message>)
    ensures |left| <= |ms| && left == ms[|ms| - |left|..]
  {
    if IsCopyDone(ms) then ms[1..]
    else if !IsCopyData(ms) then ms
    else if IsCopyDone(ms[1..]) then ms[2..]
    else ms[1..]
  }

  /** The stream took a CopyDone at its end. */
  predicate TakesDone(ms: seq<Message>) {
    IsCopyDone(ms) || (IsCopyData(ms) && IsCopyDone(ms[1..]))
  }

  /** The stream ended by looking at the type of a message it leaves. */
  predicate Peeked(ms: seq<Message>) { AfterEnd(ms) != [] && !TakesDone(ms) }

  /** The messages left unread by a whole COPY stream. */
  function Unread(ms: seq<Message>): (left: seq<Message>)
    ensures |left| <= |ms| && left == ms[|ms| - |left|..]
  {
    AfterEnd(ms[|Lines(ms)|..])
  }

  /** A message the formats can express; CopyDone has no body. */
  predicate Sound(m: Message) {
    Frontend.WellFormed(m) && (m.Other? && m.t == Frontend.COPY_DONE ==> m.payload == [])
  }

  /** Sound messages behind which nothing more is read: the input ends, or one of them is Terminate. */
  predicate Whole(ms: seq<Message>, tail: Bytes) {
    if ms == [] then tail == []
    else Sound(ms[0]) && (ms[0].Terminate? || Whole(ms[1..], tail))
  }

  /** The inserts that reach the executor: one for each line with the right number of fields. */
  function {:tailrecursion false} Inserts(s: Stmt, columns: seq<GoString>, lines: seq<seq<GoString>>): seq<Call> {
    if lines == [] then []
    else (if |lines[0]| == |columns| then [InsertCopied(s, CopiedColumns(columns, lines[0]))] else [])
         + Inserts(s, columns, lines[1..])
  }

  /** How many of `cs`, performed one after another behind `calls`, are accepted. */
  function Accepted(env: Env, calls: seq<Call>, cs: seq<Call>): (n: nat)
    ensures n <= |cs|
    decreases |cs|
  {
    if cs == [] then 0
    else (if env.answer(calls + [cs[0]]).failure.None? then 1 else 0) + Accepted(env, calls + [cs[0]], cs[1..])
  }

  lemma {:induction false} InsertsBound(s: Stmt, columns: seq<GoString>, lines: seq<seq<GoString>>)
    ensures |Inserts(s, columns, lines)| <= |lines|
    decreases |lines|
  {
    if lines != [] {
      InsertsBound(s, columns, lines[1..]);
    }
  }

  /** The loop's verdict. */
  function Verdict(nCopy: nat, nFail: nat): (seq<Response>, Option<Error>) {
    if nFail > 0 then ([], Some(CopyIncomplete(nCopy, nFail))) else ([QueryLaws.Copied(nCopy)], None)
  }

  // The stream.

  lemma EncodeFirst(ms: seq<Message>, tail: Bytes)
    requires ms != []
    ensures EncodeAll(ms) + tail == Encode(ms[0]) + (EncodeAll(ms[1..]) + tail)
    ensures EncodeAll(ms) + tail != [] && (EncodeAll(ms) + tail)[0] == TypeByte(ms[0])
  {
    hide Body, TypeByte, Int32Bytes;
  }

  lemma EncodeNothing(tail: Bytes)
    ensures EncodeAll([]) + tail == tail
  {}

  lemma NextIsLine(i: Input, ms: seq<Message>, tail: Bytes)
    requires i.Tidy() && i.Stream() == EncodeAll(ms) + tail && AtLine(ms) && WellFormed(ms[0])
    ensures Next(i) == Ok(Split(TrimRight(ms[0].payload)), At(i, EncodeAll(ms[1..]) + tail))
  {
    hide CopyData, Int32Bytes, Split, TrimRight, IsEndMarker, EncodeAll;
    EncodeFirst(ms, tail);
    PeekKeepsStream(i, 1);
    CopyDataPrefix(Peek(i, 1).next, ms[0].payload, EncodeAll(ms[1..]) + tail);
  }

  /** A CopyDone whose type byte is being peeked at. */
  lemma DoneIsRead(i: Input, ms: seq<Message>, tail: Bytes)
    requires i.Tidy() && i.Stream() == EncodeAll(ms) + tail && IsCopyDone(ms) && Sound(ms[0])
    ensures Peek(i, 1).Ok? && Peek(i, 1).value[0] == COPY_DONE
    ensures Requests.Header(Peek(i, 1).next) == Ok(Requests.Head(COPY_DONE, 4), At(i, EncodeAll(ms[1..]) + tail))
  {
    hide Int32Bytes, Requests.Header, Take, Peek, EncodeAll;
    EncodeFirst(ms, tail);
    PeekKeepsStream(i, 1);
    var u := EncodeAll(ms[1..]) + tail;
    MessageLaws.HeaderPrefix(Peek(i, 1).next, COPY_DONE, [], u);
    assert [] + u == u;
  }

  /** The type byte of what comes next, or the end of the input. */
  lemma PeekNext(i: Input, ms: seq<Message>, tail: Bytes)
    requires i.Tidy() && i.Stream() == EncodeAll(ms) + tail && Whole(ms, tail)
    ensures ms == [] ==> Peek(i, 1).Err? && Peek(i, 1).error == Eof && Peek(i, 1).next == At(i, [])
    ensures ms != [] ==> Peek(i, 1).Ok? && Peek(i, 1).value == [TypeByte(ms[0])]
    ensures ms != [] ==> Peek(i, 1).next.Tidy() && Peek(i, 1).next.Stream() == i.Stream()
    ensures Peek(i, 1).next.cuts == i.cuts && (Peek(i, 1).next.peek != [] <==> ms != [])
  {
    if ms == [] {
      EncodeNothing(tail);
      assert i.peek == [] && i.rest == [];
    } else {
      EncodeFirst(ms, tail);
      hide EncodeAll, TypeByte, Encode;
      PeekKeepsStream(i, 1);
      assert i.Stream()[..1] == [i.Stream()[0]];
    }
  }

  lemma OnlyCopyTypes(m: Message)
    requires WellFormed(m)
    ensures TypeByte(m) == COPY_DATA <==> m.Other? && m.t == COPY_DATA
    ensures TypeByte(m) == COPY_DONE <==> m.Other? && m.t == COPY_DONE
  {
    hide Body;
  }

  lemma MarkerIsRead(i: Input, ms: seq<Message>, tail: Bytes)
    requires i.Tidy() && i.Stream() == EncodeAll(ms) + tail && Whole(ms, tail)
    requires IsCopyData(ms) && IsEndMarker(TrimRight(ms[0].payload))
    ensures Next(i) == AfterMarker(At(i, EncodeAll(ms[1..]) + tail)) && Whole(ms[1..], tail)
  {
    hide CopyData, Int32Bytes, Split, TrimRight, IsEndMarker, Take, Peek, AfterMarker, EncodeAll;
    EncodeFirst(ms, tail);
    PeekKeepsStream(i, 1);
    CopyDataPrefix(Peek(i, 1).next, ms[0].payload, EncodeAll(ms[1..]) + tail);
  }

  /** Behind an end marker: a CopyDone goes too, anything else stays. */
  lemma AfterMarkerEnds(i: Input, ms: seq<Message>, tail: Bytes)
    requires i.Drained() && i.Stream() == EncodeAll(ms) + tail && Whole(ms, tail)
    ensures var r, left := AfterMarker(i), if IsCopyDone(ms) then ms[1..] else ms;
      && r.error == Eof && r.next.Tidy() && r.next.Stream() == EncodeAll(left) + tail && r.next.cuts == i.cuts
      && Whole(left, tail) && (r.next.peek != [] <==> ms != [] && !IsCopyDone(ms))
  {
    hide Requests.Header, Peek, Int32Bytes;
    PeekNext(i, ms, tail);
    if ms == [] {
      EncodeNothing(tail);
    } else {
      hide EncodeAll;
      OnlyCopyTypes(ms[0]);
      if IsCopyDone(ms) {
        DoneIsRead(i, ms, tail);
      }
    }
  }

  /** When no line is next the stream has come to its end, whatever is next, the end of the input included. */
  lemma NextIsEnd(i: Input, ms: seq<Message>, tail: Bytes)
    requires i.Tidy() && i.Stream() == EncodeAll(ms) + tail && Whole(ms, tail) && !AtLine(ms)
    ensures Next(i).Err? && Next(i).error == Eof
    ensures Next(i).next.Tidy() && Next(i).next.Stream() == EncodeAll(AfterEnd(ms)) + tail
            && Next(i).next.cuts == i.cuts
    ensures Whole(AfterEnd(ms), tail) && (Next(i).next.peek != [] <==> Peeked(ms))
  {
    hide CopyData, AfterMarker, Int32Bytes, Split, TrimRight, IsEndMarker, Requests.Header, Take, Peek, Encode;
    PeekNext(i, ms, tail);
    if ms == [] {
      EncodeNothing(tail);
      return;
    }
    hide EncodeAll;
    OnlyCopyTypes(ms[0]);
    if IsCopyData(ms) {
      MarkerIsRead(i, ms, tail);
      AfterMarkerEnds(At(i, EncodeAll(ms[1..]) + tail), ms[1..], tail);
      assert ms[1..] != [] ==> ms[1..][1..] == ms[2..];
    } else if IsCopyDone(ms) {
      DoneIsRead(i, ms, tail);
    }
  }

  // The loop.

  lemma AcceptedFirst(env: Env, calls: seq<Call>, c: Call, cs: seq<Call>)
    ensures Accepted(env, calls, [c] + cs)
         == (if env.answer(calls + [c]).failure.None? then 1 else 0) + Accepted(env, calls + [c], cs)
  {
    assert ([c] + cs)[1..] == cs;
  }

  lemma CopyLoopTurn(env: Env, st: State, s: Stmt, columns: seq<GoString>, fields: seq<GoString>, i: Input, nCopy: nat,
      nFail: nat)
    ensures Next(st.input) == Ok(fields, i) ==>
      var (st1, err) := OfferLine(env, st.(input := i), s, columns, fields);
      CopyLoop(env, st, s, columns, nCopy, nFail)
      == CopyLoop(env, st1, s, columns, if err.Some? then nCopy else nCopy + 1, if err.Some? then nFail + 1 else nFail)
  {
    hide Next, OfferLine;
  }

  lemma CopyLoopEnd(env: Env, st: State, s: Stmt, columns: seq<GoString>, i: Input, nCopy: nat, nFail: nat)
    ensures Next(st.input) == Err(Eof, i) ==>
      var (responses, err) := Verdict(nCopy, nFail);
      CopyLoop(env, st, s, columns, nCopy, nFail) == Reply(st.(input := i), responses, err)
  {
    hide Next, CopyComplete, QueryLaws.Copied;
    QueryLaws.CopiedIs(nCopy);
  }

  /** What one line does to the executor and the counters. */
  lemma OfferDoes(env: Env, st: State, s: Stmt, columns: seq<GoString>, line: seq<GoString>, lines: seq<seq<GoString>>)
    ensures var (st1, err) := OfferLine(env, st, s, columns, line);
      var cs := Inserts(s, columns, [line] + lines);
      var rest := Inserts(s, columns, lines);
      && st1 == st.(calls := st1.calls)
      && st1.calls + rest == st.calls + cs
      && Accepted(env, st.calls, cs) == (if err.None? then 1 else 0) + Accepted(env, st1.calls, rest)
  {
    hide Accepted;
    var rest := Inserts(s, columns, lines);
    assert ([line] + lines)[1..] == lines;
    if |line| == |columns| {
      var c := InsertCopied(s, CopiedColumns(columns, line));
      AcceptedFirst(env, st.calls, c, rest);
      assert (st.calls + [c]) + rest == st.calls + ([c] + rest);
    } else {
      assert [] + rest == rest;
    }
  }

  /** Well-formed lines and nothing else. */
  predicate AllLines(ms: seq<Message>) {
    ms == [] || (AtLine(ms) && WellFormed(ms[0]) && AllLines(ms[1..]))
  }

  lemma LinesFirst(ms: seq<Message>)
    requires AtLine(ms)
    ensures Lines(ms) == [Split(TrimRight(ms[0].payload))] + Lines(ms[1..])
  {}

  lemma NoLines(env: Env, calls: seq<Call>, s: Stmt, columns: seq<GoString>)
    ensures Inserts(s, columns, Lines([])) == [] && Accepted(env, calls, []) == 0 && calls + [] == calls
  {}

  /** Whatever follows them: any number of lines are offered in order, those of the right width are inserted, each is
      counted once, and the loop goes on behind them. */
  lemma {:induction false} CopyLoopLines(
    env: Env, st: State, s: Stmt, columns: seq<GoString>, ms: seq<Message>, tail: Bytes, nCopy: nat, nFail: nat)
    returns (st1: State, cs: seq<Call>, n: nat)
    requires st.input.Tidy() && st.input.Stream() == EncodeAll(ms) + tail && AllLines(ms)
    ensures cs == Inserts(s, columns, Lines(ms)) && n == Accepted(env, st.calls, cs) && n <= |ms|
    ensures st1 == st.(input := st1.input, calls := st.calls + cs)
    ensures st1.input.Tidy() && st1.input.Stream() == tail && st1.input.cuts == st.input.cuts
    ensures CopyLoop(env, st, s, columns, nCopy, nFail) ==
            CopyLoop(env, st1, s, columns, nCopy + n, nFail + (|ms| - n))
    decreases |ms|
  {
    hide *;
    if ms == [] {
      EncodeNothing(tail);
      NoLines(env, st.calls, s, columns);
      st1, cs, n := st, [], 0;
      return;
    }
    var line, i := LineIsNext(st.input, ms, tail);
    var st0 := st.(input := i);
    LinesFirst(ms);
    CopyLoopTurn(env, st, s, columns, line, i, nCopy, nFail);
    OfferDoes(env, st0, s, columns, line, Lines(ms[1..]));
    var (st2, err) := OfferLine(env, st0, s, columns, line);
    var cs2, n2;
    st1, cs2, n2 := CopyLoopLines(env, st2, s, columns, ms[1..], tail,
                                  if err.Some? then nCopy else nCopy + 1, if err.Some? then nFail + 1 else nFail);
    cs := Inserts(s, columns, Lines(ms));
    n := Accepted(env, st.calls, cs);
  }

  lemma LineIsNext(i: Input, ms: seq<Message>, tail: Bytes) returns (line: seq<GoString>, j: Input)
    requires i.Tidy() && i.Stream() == EncodeAll(ms) + tail && ms != [] && AllLines(ms)
    ensures Next(i) == Ok(line, j) && line == Split(TrimRight(ms[0].payload)) && AtLine(ms) && ms[0].Other?
    ensures j.Tidy() && j.Stream() == EncodeAll(ms[1..]) + tail && j.cuts == i.cuts && AllLines(ms[1..])
  {
    hide Split, TrimRight, IsEndMarker, EncodeAll;
    var u := EncodeAll(ms[1..]) + tail;
    NextIsLine(i, ms, tail);
    line, j := Split(TrimRight(ms[0].payload)), At(i, u);
    assert [] + u == u;
  }

  /** Every list of messages is some lines and then no line. */
  lemma {:induction false} LinesSplit(ms: seq<Message>, tail: Bytes)
    requires Whole(ms, tail)
    ensures var k := |Lines(ms)|;
      && AllLines(ms[..k]) && Lines(ms[..k]) == Lines(ms) && !AtLine(ms[k..]) && Whole(ms[k..], tail)
      && EncodeAll(ms) + tail == EncodeAll(ms[..k]) + (EncodeAll(ms[k..]) + tail)
    decreases |ms|
  {
    hide Split, TrimRight, IsEndMarker, Encode, WellFormed;
    var k := |Lines(ms)|;
    if AtLine(ms) {
      LinesSplit(ms[1..], tail);
      assert ms[k..] == ms[1..][k - 1..] && ms[..k][1..] == ms[1..][..k - 1];
      assert Encode(ms[0]) + EncodeAll(ms[1..][..k - 1]) + (EncodeAll(ms[k..]) + tail)
          == Encode(ms[0]) + (EncodeAll(ms[1..][..k - 1]) + (EncodeAll(ms[k..]) + tail));
      assert Encode(ms[0]) + EncodeAll(ms[1..]) + tail == Encode(ms[0]) + (EncodeAll(ms[1..]) + tail);
    } else {
      assert ms[0..] == ms && ms[..0] == [];
      assert [] + (EncodeAll(ms) + tail) == EncodeAll(ms) + tail;
    }
  }

  /** For every list of messages: the loop offers exactly the lines in front, in order, inserts exactly those of the
      right width, counts each of them once, gives its verdict on the counts, and leaves exactly the unread messages. */
  lemma CopyLoopReads(env: Env, st: State, s: Stmt, columns: seq<GoString>, ms: seq<Message>, tail: Bytes)
    returns (r: Reply, cs: seq<Call>, n: nat)
    requires st.input.Tidy() && st.input.Stream() == EncodeAll(ms) + tail && Whole(ms, tail)
    ensures r == CopyLoop(env, st, s, columns, 0, 0)
    ensures cs == Inserts(s, columns, Lines(ms)) && n == Accepted(env, st.calls, cs) && n <= |Lines(ms)|
    ensures r.state == st.(input := r.state.input, calls := st.calls + cs)
    ensures r.state.input.Tidy() && r.state.input.Stream() == EncodeAll(Unread(ms)) + tail
    ensures r.state.input.cuts == st.input.cuts && Whole(Unread(ms), tail)
    ensures r.state.input.peek != [] <==> Peeked(ms[|Lines(ms)|..])
    ensures r.responses == Verdict(n, |Lines(ms)| - n).0 && r.err == Verdict(n, |Lines(ms)| - n).1
  {
    hide *;
    var k := |Lines(ms)|;
    LinesSplit(ms, tail);
    var st1: State;
    st1, cs, n := CopyLoopLines(env, st, s, columns, ms[..k], EncodeAll(ms[k..]) + tail, 0, 0);
    NextIsEnd(st1.input, ms[k..], tail);
    UnreadIs(ms);
    CopyLoopEnd(env, st1, s, columns, Next(st1.input).next, n, k - n);
    r := CopyLoop(env, st, s, columns, 0, 0);
  }

  lemma UnreadIs(ms: seq<Message>)
    ensures Unread(ms) == AfterEnd(ms[|Lines(ms)|..])
  {}

  /** How many CopyData messages are in front. */
  function LeadingData(ms: seq<Message>): (n: nat)
    ensures n <= |ms|
  {
    if IsCopyData(ms) then 1 + LeadingData(ms[1..]) else 0
  }

  /** All the data in front is offered exactly when none of it trims to an end marker: to nothing, or to dots and
      backslashes. */
  lemma {:induction false} AllDataOfferedIff(ms: seq<Message>)
    ensures |Lines(ms)| <= LeadingData(ms)
    ensures |Lines(ms)| == LeadingData(ms) <==>
            forall k :: 0 <= k < LeadingData(ms) && ms[k].Other? ==> !IsEndMarker(TrimRight(ms[k].payload))
    decreases |ms|
  {
    hide Split, TrimRight, IsEndMarker;
    if IsCopyData(ms) {
      AllDataOfferedIff(ms[1..]);
      assert forall k :: 0 <= k < |ms| - 1 ==> ms[1..][k] == ms[k + 1];
    }
  }

  lemma MarkersMark()
    ensures IsEndMarker(TrimRight([10])) && IsEndMarker(TrimRight([46, 46, 46, 13, 10]))
  {}

  /** The answer is "COPY k" exactly when all k lines were inserted, and otherwise an error with both counts. */
  lemma CopyAnswersAllOrNothing(env: Env, st: State, s: Stmt, columns: seq<GoString>, ms: seq<Message>, tail: Bytes)
    requires st.input.Tidy() && st.input.Stream() == EncodeAll(ms) + tail && Whole(ms, tail)
    ensures var r, k := CopyLoop(env, st, s, columns, 0, 0), |Lines(ms)|;
      var n := Accepted(env, st.calls, Inserts(s, columns, Lines(ms)));
      && n <= k && (r.err.None? <==> n == k) && (r.responses == [QueryLaws.Copied(k)] <==> n == k)
      && (n < k ==> r.responses == [] && r.err == Some(CopyIncomplete(n, k - n)))
  {
    hide CopyLoop, CopyComplete, QueryLaws.Copied, Accepted, Inserts, Lines, Unread, Whole, EncodeAll, TxStep;
    var r, cs, n := CopyLoopReads(env, st, s, columns, ms, tail);
  }

  // A connection lost inside a frame.

  lemma HeaderCutShort(i: Input, s: Bytes)
    requires i.Drained() && i.rest == s && |s| < 4
    ensures var j := i.(peek := [COPY_DATA]);
      Requests.Header(j) == Err(if s == [] then Eof else UnexpectedEof, At(i, []))
  {
    hide Int32Of;
    var j := i.(peek := [COPY_DATA]);
    TakePrefix(j, [COPY_DATA], s);
  }

  lemma PayloadCutShort(i: Input, payload: Bytes, s: Bytes)
    requires i.Drained() && i.rest == Int32Bytes(|payload| + 4) + s && |s| < |payload| && IsInt32(|payload| + 4)
    ensures var j := i.(peek := [COPY_DATA]);
      CopyData(j) == Err(if s == [] then Eof else UnexpectedEof, At(i, []))
  {
    hide Int32Of, Int32Bytes, Int32, TrimRight, Split, IsEndMarker;
    var j := i.(peek := [COPY_DATA]);
    TakePrefix(j, [COPY_DATA], i.rest);
    Int32Prefix(At(i, i.rest), |payload| + 4, s);
    assert Requests.Header(j) == Ok(Requests.Head(COPY_DATA, |payload| + 4), At(i, s));
  }

  lemma NothingAfterMarker(i: Input)
    ensures AfterMarker(At(i, [])).Err? && AfterMarker(At(i, [])).error == Eof
            && AfterMarker(At(i, [])).next.Stream() == []
  {}

  /** A CopyData frame of which only the first n bytes arrive before the input ends: behind the type byte or behind the
      length it passes for the end of the data, anywhere else it is an error. */
  lemma FrameCutShort(i: Input, payload: Bytes, n: nat)
    requires i.Tidy() && IsInt32(|payload| + 4) && 0 < n < |payload| + 5
    requires i.Stream() == Frame(COPY_DATA, payload)[..n]
    ensures Next(i).Err? && Next(i).next.Stream() == []
    ensures Next(i).error == if n == 1 || n == 5 then Eof else UnexpectedEof
  {
    hide Next, CopyData, AfterMarker, Int32Bytes, Take;
    var f := Frame(COPY_DATA, payload);
    var j := At(i, f[1..n]);
    assert f[..n][..1] == [COPY_DATA] && f[..n][1..] == f[1..n];
    PeekKeepsStream(i, 1);
    DataCutShort(j, payload, n);
    NextFails(i, j.(peek := [COPY_DATA]), if n == 1 || n == 5 then Eof else UnexpectedEof);
  }

  lemma DataCutShort(j: Input, payload: Bytes, n: nat)
    requires j.Drained() && IsInt32(|payload| + 4) && 0 < n < |payload| + 5
    requires j.rest == Frame(COPY_DATA, payload)[1..n]
    ensures CopyData(j.(peek := [COPY_DATA])) == Err(if n == 1 || n == 5 then Eof else UnexpectedEof, At(j, []))
  {
    var f := Frame(COPY_DATA, payload);
    hide Int32Bytes, Requests.Data, Requests.Header, TrimRight, Split, IsEndMarker;
    if n < 5 {
      HeaderCutShort(j, f[1..n]);
    } else {
      hide CopyData;
      assert f[1..n] == Int32Bytes(|payload| + 4) + f[5..n];
      PayloadCutShort(j, payload, f[5..n]);
    }
  }

  /** A CopyData that cannot be read to its end, at the end of the input. */
  lemma NextFails(i: Input, j: Input, e: Error)
    requires Peek(i, 1) == Ok([COPY_DATA], j) && CopyData(j) == Err(e, At(i, []))
    ensures Next(i).Err? && Next(i).error == e && Next(i).next.Stream() == []
  {
    hide Peek, CopyData;
    NothingAfterMarker(i);
    hide AfterMarker;
  }

  /** So a COPY whose connection is lost in the middle of a frame answers success exactly when it is lost at one of
      those two places and every line before was inserted. */
  lemma CopyCutShort(env: Env, st: State, s: Stmt, columns: seq<GoString>, ms: seq<Message>, payload: Bytes, n: nat)
    requires AllLines(ms) && IsInt32(|payload| + 4) && 0 < n < |payload| + 5
    requires st.input.Tidy() && st.input.Stream() == EncodeAll(ms) + Frame(COPY_DATA, payload)[..n]
    ensures var r := CopyLoop(env, st, s, columns, 0, 0);
      && (r.err.None? <==> (n == 1 || n == 5) && Accepted(env, st.calls, Inserts(s, columns, Lines(ms))) == |ms|)
      && (n != 1 && n != 5 ==> r.err == Some(UnexpectedEof))
  {
    hide CopyLoop, CopyComplete, QueryLaws.Copied, Accepted, Inserts, Lines, EncodeAll, AllLines, Frame, TxStep, Next;
    var st1, cs, k := CopyLoopLines(env, st, s, columns, ms, Frame(COPY_DATA, payload)[..n], 0, 0);
    FrameCutShort(st1.input, payload, n);
    CopyLoopFails(env, st1, s, columns, k, |ms| - k);
    CopyLoopEnd(env, st1, s, columns, Next(st1.input).next, k, |ms| - k);
  }

  lemma CopyLoopFails(env: Env, st: State, s: Stmt, columns: seq<GoString>, nCopy: nat, nFail: nat)
    ensures Next(st.input).Err? && Next(st.input).error != Eof ==>
              CopyLoop(env, st, s, columns, nCopy, nFail) ==
              Reply(st.(input := Next(st.input).next), [], Some(Next(st.input).error))
  {
    hide Next;
  }
}
