/** The startup message of postgresql/protocol/startup.go and the SSLRequest that may come before it. */
module StartupMessage {
  import opened BigEndian
  import opened Errors
  import opened Inputs
  import Frontend
  import MessageLaws
  import Requests

  type Parameters = map<GoString, GoString>

  datatype Startup = Startup(major: int, minor: int, length: int, params: Parameters)

  const SSL_REQUEST_CODE := 80877103
  const SSL_REQUEST_LENGTH := 8

  /** The pair loop: it ends when `msgLen` bytes are counted or at an empty key. */
  function Pairs(i: Input, readLen: int, msgLen: int, params: Parameters): (r: Parsed<Parameters>)
    ensures Reads(i, r)
    decreases msgLen - readLen
  {
    if readLen >= msgLen then Ok(params, i)
    else
      var (k, j) :- Str(i);
      if k == [] then Ok(params, j)
      else
        var (v, l) :- Str(j);
        Pairs(l, readLen + |k| + 1 + |v| + 1, msgLen, params[k := v])
  }

  lemma AddOneKey(m: Parameters, k: GoString, v: GoString)
    ensures |m[k := v]| <= |m| + 1
  {
    assert m[k := v].Keys == m.Keys + {k};
    if k in m.Keys {
      assert m.Keys + {k} == m.Keys;
    }
  }

  /** On any input whatever, every completed pair counts at least three bytes of the message length. */
  lemma {:induction false} PairBound(i: Input, readLen: int, msgLen: int, params: Parameters)
    requires Pairs(i, readLen, msgLen, params).Ok?
    ensures 3 * |Pairs(i, readLen, msgLen, params).value|
         <= 3 * |params| + if readLen < msgLen then msgLen - readLen + 2 else 0
    decreases msgLen - readLen
  {
    if readLen < msgLen && Str(i).value != [] {
      var k, j := Str(i).value, Str(i).next;
      var v, l := Str(j).value, Str(j).next;
      AddOneKey(params, k, v);
      PairBound(l, readLen + |k| + 1 + |v| + 1, msgLen, params[k := v]);
    }
  }

  /** `ver >> 16` and `ver & 0xFFFF`. */
  function Major(ver: int): int { ver / 0x1_0000 }
  function Minor(ver: int): int { ver % 0x1_0000 }

  function StartupRequest(i: Input): (r: Parsed<Startup>)
    ensures Reads(i, r)
    ensures |i.peek| <= 4 && !i.misused ==> r.next.Drained()
  {
    var (msgLen, j) :- Int32(i);
    var (ver, k) :- Int32(j);
    var (params, l) :- Pairs(k, 8, msgLen, map[]);
    Ok(Startup(Major(ver), Minor(ver), msgLen, params), l)
  }

  function SslRequest(i: Input): (r: Parsed<int>)
    ensures Reads(i, r)
    ensures |i.peek| <= 4 && !i.misused ==> r.next.Drained()
  {
    var (_, j) :- Int32(i);
    var (code, k) :- Int32(j);
    if code == SSL_REQUEST_CODE then Ok(code, k) else Err(InvalidSslCode(code), k)
  }

  const USER: GoString := [117, 115, 101, 114]

  /** `NewPasswordWithReader`: any type byte and length will do. */
  function PasswordRequest(i: Input): (r: Parsed<GoString>)
    ensures Reads(i, r)
    ensures i.Tidy() ==> r.next.Drained()
  {
    var (_, j) :- Requests.Header(i);
    Str(j)
  }

  // The messages as section 55.7 writes them.

  type Listing = seq<(GoString, GoString)>

  function {:tailrecursion false} PairsBytes(ps: Listing): Bytes {
    if ps == [] then [0] else Frontend.CString(ps[0].0) + (Frontend.CString(ps[0].1) + PairsBytes(ps[1..]))
  }

  function Encode(major: int, minor: int, ps: Listing): Bytes {
    Int32Bytes(|PairsBytes(ps)| + 8) + (Int32Bytes(major * 0x1_0000 + minor) + PairsBytes(ps))
  }

  predicate WellFormed(major: int, minor: int, ps: Listing) {
    && IsInt16(major) && 0 <= minor < 0x1_0000
    && IsInt32(|PairsBytes(ps)| + 8)
    && forall n :: 0 <= n < |ps| ==> ps[n].0 != [] && NulFree(ps[n].0) && NulFree(ps[n].1)
  }

  /** `ps` writes the map down in some order. */
  predicate Lists(ps: Listing, m: Parameters) {
    && (forall i, j :: 0 <= i < j < |ps| ==> ps[i].0 != ps[j].0)
    && (forall i :: 0 <= i < |ps| ==> ps[i].0 in m && m[ps[i].0] == ps[i].1)
    && (forall k :: k in m ==> exists i :: 0 <= i < |ps| && ps[i].0 == k)
  }

  function Assign(m: Parameters, ps: Listing): Parameters
    decreases |ps|
  {
    if ps == [] then m else Assign(m[ps[0].0 := ps[0].1], ps[1..])
  }

  /** One turn of the pair loop. */
  lemma PairStep(i: Input, readLen: int, msgLen: int, params: Parameters, k: GoString, v: GoString, u: Bytes)
    requires i.peek == [] && i.rest == Frontend.CString(k) + (Frontend.CString(v) + u)
    requires k != [] && NulFree(k) && NulFree(v) && readLen < msgLen
    ensures Pairs(i, readLen, msgLen, params) == Pairs(At(i, u), readLen + |k| + 1 + |v| + 1, msgLen, params[k := v])
  {
    hide Str;
    var t := Frontend.CString(v) + u;
    StrPrefix(i, k, t);
    StrPrefix(At(i, t), v, u);
  }

  lemma PairsEnd(i: Input, readLen: int, msgLen: int, params: Parameters, s: Bytes)
    requires i.peek == [] && i.rest == [0] + s && readLen < msgLen
    ensures Pairs(i, readLen, msgLen, params) == Ok(params, At(i, s))
  {
    hide Str;
    assert i.rest == [] + [0] + s;
    StrPrefix(i, [], s);
  }

  lemma PairsHead(ps: Listing, s: Bytes)
    requires ps != []
    ensures PairsBytes(ps) + s
         == Frontend.CString(ps[0].0) + (Frontend.CString(ps[0].1) + (PairsBytes(ps[1..]) + s))
    ensures |PairsBytes(ps)| == |ps[0].0| + 1 + |ps[0].1| + 1 + |PairsBytes(ps[1..])|
  {}

  lemma AssignHead(m: Parameters, ps: Listing)
    requires ps != []
    ensures Assign(m, ps) == Assign(m[ps[0].0 := ps[0].1], ps[1..])
  {}

  lemma {:induction false} PairsPrefix(i: Input, readLen: int, msgLen: int, params: Parameters, ps: Listing, s: Bytes)
    requires i.peek == [] && i.rest == PairsBytes(ps) + s && msgLen == readLen + |PairsBytes(ps)|
    requires forall n :: 0 <= n < |ps| ==> ps[n].0 != [] && NulFree(ps[n].0) && NulFree(ps[n].1)
    ensures Pairs(i, readLen, msgLen, params) == Ok(Assign(params, ps), At(i, s))
    decreases |ps|
  {
    if ps == [] {
      PairsEnd(i, readLen, msgLen, params, s);
    } else {
      hide Assign, Pairs, PairsBytes, Frontend.CString, NulFree;
      var k, v := ps[0].0, ps[0].1;
      var u := PairsBytes(ps[1..]) + s;
      PairsHead(ps, s);
      AssignHead(params, ps);
      var n := readLen + |k| + 1 + |v| + 1;
      assert At(At(i, u), s) == At(i, s);
      PairStep(i, readLen, msgLen, params, k, v, u);
      PairsPrefix(At(i, u), n, msgLen, params[k := v], ps[1..], s);
    }
  }

  lemma {:induction false} AssignKeys(m: Parameters, ps: Listing)
    requires forall i, j :: 0 <= i < j < |ps| ==> ps[i].0 != ps[j].0
    ensures forall k :: k in Assign(m, ps) <==> k in m || exists i :: 0 <= i < |ps| && ps[i].0 == k
    ensures forall i :: 0 <= i < |ps| ==> ps[i].0 in Assign(m, ps) && Assign(m, ps)[ps[i].0] == ps[i].1
    ensures forall k :: k in m && (forall i :: 0 <= i < |ps| ==> ps[i].0 != k) ==>
            k in Assign(m, ps) && Assign(m, ps)[k] == m[k]
    decreases |ps|
  {
    if ps != [] {
      var m1 := m[ps[0].0 := ps[0].1];
      var rest := ps[1..];
      AssignKeys(m1, rest);
      assert forall i :: 0 <= i < |rest| ==> rest[i] == ps[i + 1];
      forall k
        ensures k in Assign(m, ps) <==> k in m || exists i :: 0 <= i < |ps| && ps[i].0 == k
      {
        if i :| 0 <= i < |ps| && ps[i].0 == k && i > 0 {
          assert rest[i - 1].0 == k;
        }
      }
      forall i | 0 <= i < |ps|
        ensures ps[i].0 in Assign(m, ps) && Assign(m, ps)[ps[i].0] == ps[i].1
      {
        if i > 0 {
          assert rest[i - 1] == ps[i];
        }
      }
    }
  }

  lemma AssignListing(ps: Listing, m: Parameters)
    requires Lists(ps, m)
    ensures Assign(map[], ps) == m
  {
    AssignKeys(map[], ps);
    var a := Assign(map[], ps);
    assert a.Keys == m.Keys;
    forall k | k in m
      ensures a[k] == m[k]
    {
      var i :| 0 <= i < |ps| && ps[i].0 == k;
    }
  }

  /** Any parameter map, written in any order with any version, is read back, and exactly its length is consumed.
      The state may hold the four bytes peeked to tell an SSLRequest from a startup message. */
  lemma StartupRoundTrip(i: Input, major: int, minor: int, ps: Listing, m: Parameters, s: Bytes)
    requires WellFormed(major, minor, ps) && Lists(ps, m)
    requires |i.peek| <= 4 && i.Stream() == Encode(major, minor, ps) + s
    ensures var n := |Encode(major, minor, ps)|;
      StartupRequest(i) == Ok(Startup(major, minor, n, m), At(i, s)) && |i.Stream()| - |s| == n
  {
    hide Int32Bytes, Int32Of, Int32, Pairs;
    var len := |PairsBytes(ps)| + 8;
    var ver := major * 0x1_0000 + minor;
    var u2 := PairsBytes(ps) + s;
    var u1 := Int32Bytes(ver) + u2;
    assert i.Stream() == Int32Bytes(len) + u1;
    Int32Prefix(i, len, u1);
    assert IsInt32(ver);
    Int32Prefix(At(i, u1), ver, u2);
    VersionParts(major, minor);
    PairsPrefix(At(i, u2), 8, len, map[], ps, s);
    AssignListing(ps, m);
  }

  lemma VersionParts(major: int, minor: int)
    requires 0 <= minor < 0x1_0000
    ensures Major(major * 0x1_0000 + minor) == major && Minor(major * 0x1_0000 + minor) == minor
  {}

  const PASSWORD: byte := 112

  function PasswordBytes(password: GoString): Bytes { Frontend.Frame(PASSWORD, Frontend.CString(password)) }

  predicate PasswordFits(password: GoString) { NulFree(password) && IsInt32(|password| + 5) }

  /** Every password is read back, and its message is consumed exactly. */
  lemma PasswordRoundTrip(i: Input, password: GoString, s: Bytes)
    requires i.Tidy() && i.Stream() == PasswordBytes(password) + s && PasswordFits(password)
    ensures PasswordRequest(i) == Ok(password, At(i, s))
  {
    hide Requests.Header, Int32Bytes, Str;
    var body := Frontend.CString(password);
    assert i.Stream() == Frontend.Frame(PASSWORD, body) + s;
    MessageLaws.HeaderPrefix(i, PASSWORD, body, s);
    StrPrefix(At(i, body + s), password, s);
  }

  /** An SSLRequest is eight bytes, consumed whole. */
  lemma SslRoundTrip(i: Input, s: Bytes)
    requires |i.peek| <= 4 && i.Stream() == Int32Bytes(SSL_REQUEST_LENGTH) + (Int32Bytes(SSL_REQUEST_CODE) + s)
    ensures SslRequest(i) == Ok(SSL_REQUEST_CODE, At(i, s)) && |i.Stream()| - |s| == SSL_REQUEST_LENGTH
  {
    hide Int32Bytes, Int32Of, Int32;
    var u := Int32Bytes(SSL_REQUEST_CODE) + s;
    Int32Prefix(i, SSL_REQUEST_LENGTH, u);
    Int32Prefix(At(i, u), SSL_REQUEST_CODE, s);
  }
}
