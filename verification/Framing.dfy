/** Backend messages as bytes: the writer, the frame around a payload, and how a client cuts the stream again. */
module Framing {
  import opened BigEndian
  import opened Responses

  /** `ResponseMessage.Bytes`: a message of type 0 has no type byte; the length is truncated to an int32. */
  function FrameBytes(typ: byte, payload: Bytes): Bytes {
    (if typ != 0 then [typ] else []) + (Int32Bytes(|payload| + 4) + payload)
  }

  function ResponseBytes(r: Response): Bytes {
    match r
    case Typed(typ, payload) => FrameBytes(typ, payload)
    case Bare(b) => [b]
  }

  /** What a list of responses puts on the connection. */
  function {:tailrecursion false} Wire(rs: seq<Response>): Bytes {
    if rs == [] then [] else ResponseBytes(rs[0]) + Wire(rs[1..])
  }

  /** A client's view: type byte, big-endian length, that many bytes, and so on to the end. */
  function {:tailrecursion false} Cut(b: Bytes): (rs: Option<seq<Response>>)
    decreases |b|
  {
    if b == [] then Some([])
    else if |b| < 5 then None
    else
      var len := Int32Of(b[1..5]);
      if len < 4 || |b| < 1 + len then None
      else
        match Cut(b[1 + len..])
        case None => None
        case Some(rest) => Some([Typed(b[0], b[5..1 + len])] + rest)
  }

  /** Every response behind the startup prefix is a message with a type byte. */
  predicate Typical(r: Response) { r.Typed? && r.typ != 0 }

  predicate FitsFrame(r: Response) { r.Typed? && IsInt32(|r.payload| + 4) }

  lemma FrameLayout(typ: byte, payload: Bytes, s: Bytes)
    requires typ != 0
    ensures var b := FrameBytes(typ, payload) + s;
      && |b| == 5 + |payload| + |s| && b[0] == typ
      && Int32Of(b[1..5]) == Wrap32(|payload| + 4)
      && b[5..5 + |payload|] == payload && b[5 + |payload|..] == s
  {
    hide Int32Bytes, Int32Of;
    var b := FrameBytes(typ, payload) + s;
    assert b == [typ] + Int32Bytes(|payload| + 4) + payload + s;
    assert b[1..5] == Int32Bytes(|payload| + 4);
    Int32RoundTrip(|payload| + 4);
  }

  lemma CutFirst(r: Response, s: Bytes)
    requires Typical(r) && FitsFrame(r)
    ensures Cut(ResponseBytes(r) + s) == match Cut(s) { case None => None case Some(rest) => Some([r] + rest) }
  {
    FrameLayout(r.typ, r.payload, s);
    WrapInRange(|r.payload| + 4);
    hide FrameBytes, Int32Of, Wrap32;
  }

  /** A frame whose length does not fit an int32 is never cut back to itself. */
  lemma CutOversized(r: Response, s: Bytes)
    requires Typical(r) && !FitsFrame(r)
    ensures var rs := Cut(ResponseBytes(r) + s); rs.None? || rs.value == [] || rs.value[0] != r
  {
    FrameLayout(r.typ, r.payload, s);
    assert Wrap32(|r.payload| + 4) != |r.payload| + 4;
    hide FrameBytes, Int32Of, Wrap32;
    var b := ResponseBytes(r) + s;
    var len := Int32Of(b[1..5]);
    if 4 <= len && 1 + len <= |b| {
      assert |b[5..1 + len]| == len - 4 != |r.payload|;
    }
  }

  /** The client recovers the type and payload of every response, in order, exactly when every payload is at most
      2^31 - 5 bytes long. */
  lemma {:induction false} WireCutsIff(rs: seq<Response>)
    requires forall k :: 0 <= k < |rs| ==> Typical(rs[k])
    ensures Cut(Wire(rs)) == Some(rs) <==> forall k :: 0 <= k < |rs| ==> FitsFrame(rs[k])
    decreases |rs|
  {
    hide Cut, ResponseBytes;
    if rs == [] {
      CutNothing();
    } else {
      var rest := Wire(rs[1..]);
      if FitsFrame(rs[0]) {
        CutFirst(rs[0], rest);
        WireCutsIff(rs[1..]);
        assert rs == [rs[0]] + rs[1..];
        assert forall cut :: Cut(rest) == Some(cut) ==> ([rs[0]] + cut)[1..] == cut;
      } else {
        CutOversized(rs[0], rest);
      }
    }
  }

  lemma CutNothing()
    ensures Cut([]) == Some([])
  {}

  /** So no two lists of responses look the same on the connection. */
  lemma WireInjective(rs: seq<Response>, qs: seq<Response>)
    requires forall k :: 0 <= k < |rs| ==> Typical(rs[k]) && FitsFrame(rs[k])
    requires forall k :: 0 <= k < |qs| ==> Typical(qs[k]) && FitsFrame(qs[k])
    requires Wire(rs) == Wire(qs)
    ensures rs == qs
  {
    WireCutsIff(rs);
    WireCutsIff(qs);
  }
}
