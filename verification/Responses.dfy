/** Backend responses as the server hands them to the connection (postgresql/protocol/response_message.go and the
    response constructors). */
module Responses {
  import opened BigEndian
  import opened Inputs
  import Frontend

  /** A typed message, or the single byte that answers an SSLRequest. */
  datatype Response = Typed(typ: byte, payload: Bytes) | Bare(b: byte)

  const ERROR: byte := 69
  const READY: byte := 90
  const COMMAND_COMPLETE: byte := 67
  const IDLE: byte := 73          // 'I'
  const IN_BLOCK: byte := 84      // 'T'

  const PARSE_COMPLETE := Typed(49, [])
  const BIND_COMPLETE := Typed(50, [])
  const CLOSE_COMPLETE := Typed(51, [])
  const NO_DATA := Typed(110, [])
  const SSL_DISABLED := Bare(78)
  const CLEARTEXT_PASSWORD := Typed(82, Int32Bytes(3))
  const AUTHENTICATION_OK := Typed(82, Int32Bytes(0))
  const EMPTY_ERROR := Typed(ERROR, [0])     // an ErrorResponse without fields

  function CommandComplete(tag: GoString): Response { Typed(COMMAND_COMPLETE, Frontend.CString(tag)) }

  const EMPTY_COMPLETE := CommandComplete([69, 77, 80, 84, 89])

  function Decimal(n: nat): GoString {
    if n < 10 then [48 + n] else Decimal(n / 10) + [48 + n % 10]
  }

  /** "COPY n" and "SELECT n". */
  function CopyComplete(n: nat): Response { CommandComplete([67, 79, 80, 89, 32] + Decimal(n)) }
  function SelectComplete(n: nat): Response { CommandComplete([83, 69, 76, 69, 67, 84, 32] + Decimal(n)) }

  function ParameterDescription(oids: seq<int>): Response { Typed(116, Int16Bytes(|oids|) + Int32sBytes(oids)) }
  function ReadyForQuery(status: byte): Response { Typed(READY, [status]) }

  /** One message field ('M') and the terminator. */
  function ErrorResponse(text: GoString): Response { Typed(ERROR, [77] + Frontend.CString(text) + [0]) }

  predicate HasError(rs: seq<Response>) {
    exists k :: 0 <= k < |rs| && rs[k].Typed? && rs[k].typ == ERROR
  }

  lemma {:induction false} DecimalInjective(m: nat, n: nat)
    requires Decimal(m) == Decimal(n)
    ensures m == n
    decreases m
  {
    if m >= 10 && n >= 10 {
      var a, b := Decimal(m / 10), Decimal(n / 10);
      assert Decimal(m)[..|Decimal(m)| - 1] == a && Decimal(n)[..|Decimal(n)| - 1] == b;
      DecimalInjective(m / 10, n / 10);
      assert Decimal(m)[|a|] == 48 + m % 10 && Decimal(n)[|a|] == 48 + n % 10;
    } else {
      DecimalNonEmpty(m / 10);
      DecimalNonEmpty(n / 10);
    }
  }

  lemma DecimalNonEmpty(n: nat)
    ensures |Decimal(n)| > 0
  {}

  /** The command tag tells how many lines were copied. */
  lemma CopyCompleteInjective(m: nat, n: nat)
    requires CopyComplete(m) == CopyComplete(n)
    ensures m == n
  {
    var p := CopyComplete(m).payload;
    assert p[5..|p| - 1] == Decimal(m) && p[5..|p| - 1] == Decimal(n);
    DecimalInjective(m, n);
  }
}
