/** Looking a bind parameter up by its SQL name "$n" (postgresql/protocol/bind.go). */
module BindLookup {
  import opened BigEndian
  import opened Requests
  import opened Responses

  const DOLLAR: byte := 36
  const PLUS: byte := 43
  const MINUS: byte := 45

  predicate IsDigit(b: byte) { 48 <= b <= 57 }

  /** The value of a non-empty run of decimal digits. */
  function Digits(s: GoString): Option<nat> {
    if s == [] then None
    else
      var n := |s| - 1;
      if !IsDigit(s[n]) then None
      else if n == 0 then Some(s[0] - 48)
      else
        match Digits(s[..n])
        case None => None
        case Some(v) => Some(v * 10 + (s[n] - 48))
  }

  predicate FitsInt64(v: int) { -0x8000_0000_0000_0000 <= v < 0x8000_0000_0000_0000 }

  /** `strconv.Atoi`: an optional sign, digits, and a value that fits 64 bits. */
  function Atoi(s: GoString): Option<int> {
    var signed := s != [] && (s[0] == PLUS || s[0] == MINUS);
    match Digits(if signed then s[1..] else s)
    case None => None
    case Some(n) =>
      var magnitude: int := n;
      var v := if signed && s[0] == MINUS then -magnitude else magnitude;
      if FitsInt64(v) then Some(v) else None
  }

  datatype Lookup = Found(param: BindParam) | NotExist | OutOfRange

  /** `FindBindParam`: only an index above the count is refused, so "$0" and below index out of range. */
  function FindBindParam(params: seq<BindParam>, id: GoString): Lookup {
    if id == [] || id[0] != DOLLAR then NotExist
    else
      match Atoi(id[1..])
      case None => NotExist
      case Some(idx) =>
        if |params| < idx then NotExist
        else if idx - 1 < 0 then OutOfRange
        else Found(params[idx - 1])
  }

  function Zeros(z: nat): (s: GoString)
    ensures |s| == z && forall i :: 0 <= i < z ==> s[i] == 48
  {
    if z == 0 then [] else Zeros(z - 1) + [48]
  }

  /** The ways to write a number that `Atoi` knows: a sign, zeros in front, decimal digits. */
  predicate IsSign(sign: GoString) { sign == [] || sign == ['+' as int] || sign == ['-' as int] }

  function Written(sign: GoString, z: nat, k: nat): GoString {
    sign + (Zeros(z) + Decimal(k))
  }

  function Signed(sign: GoString, k: nat): int {
    var magnitude: int := k;
    if sign == ['-' as int] then -magnitude else magnitude
  }

  lemma DigitsStep(s: GoString, d: byte)
    ensures Digits(s + [d]) ==
            if !IsDigit(d) then None
            else if s == [] then Some(d - 48)
            else match Digits(s) case None => None case Some(v) => Some(v * 10 + (d - 48))
  {
    assert (s + [d])[..|s|] == s;
  }

  lemma DecimalStep(k: nat)
    ensures Decimal(k) == if k < 10 then [48 + k] else Decimal(k / 10) + [48 + k % 10]
    ensures Decimal(k) != [] && IsDigit(Decimal(k)[0])
    decreases k
  {
    if k >= 10 {
      DecimalStep(k / 10);
    }
  }

  lemma {:induction false} DigitsOfZeros(z: nat)
    ensures Digits(Zeros(z)) == if z == 0 then None else Some(0)
    decreases z
  {
    if z > 0 {
      DigitsOfZeros(z - 1);
      DigitsStep(Zeros(z - 1), 48);
    }
  }

  lemma {:induction false} DigitsOfDecimal(z: nat, k: nat)
    ensures Digits(Zeros(z) + Decimal(k)) == Some(k)
    decreases k
  {
    DecimalStep(k);
    DigitsOfZeros(z);
    hide Digits, Decimal, Zeros;
    if k < 10 {
      DigitsStep(Zeros(z), 48 + k);
    } else {
      DigitsOfDecimal(z, k / 10);
      DecimalStep(k / 10);
      var d: byte := 48 + k % 10;
      DigitsStep(Zeros(z) + Decimal(k / 10), d);
      assert Zeros(z) + Decimal(k) == (Zeros(z) + Decimal(k / 10)) + [d];
    }
  }

  /** Digits are nothing but zeros and a decimal number. */
  lemma {:induction false} OnlyDecimal(s: GoString) returns (z: nat, k: nat)
    requires Digits(s).Some?
    ensures s == Zeros(z) + Decimal(k) && Digits(s) == Some(k)
    decreases |s|
  {
    var n := |s| - 1;
    var d := s[n];
    assert s == s[..n] + [d];
    DigitsStep(s[..n], d);
    if n == 0 {
      z, k := 0, d - 48;
      DecimalStep(k);
      assert s[..n] == [] && Zeros(0) + [d] == [d];
    } else {
      var v;
      z, v := OnlyDecimal(s[..n]);
      k := v * 10 + (d - 48);
      DecimalStep(v);
      DecimalStep(k);
      if v == 0 {
        z := z + 1;
        assert s == Zeros(z) + [d];
      } else {
        assert k / 10 == v && k % 10 == d - 48;
        assert s == Zeros(z) + (Decimal(v) + [d]);
      }
    }
  }

  lemma AtoiReads(sign: GoString, z: nat, k: nat)
    requires IsSign(sign)
    ensures Atoi(Written(sign, z, k)) == if FitsInt64(Signed(sign, k)) then Some(Signed(sign, k)) else None
  {
    var digits := Zeros(z) + Decimal(k);
    DigitsOfDecimal(z, k);
    DecimalStep(k);
    hide Digits, Decimal, Zeros;
    assert IsDigit(digits[0]);
    assert sign != [] ==> (sign + digits)[1..] == digits;
    assert sign == [] ==> sign + digits == digits;
  }

  /** "$" and a number, however it is written, find the parameter of that number, counted from 1; zero and negative
      numbers index out of range, numbers above the count or wider than 64 bits do not exist. */
  lemma FindsNumbered(params: seq<BindParam>, sign: GoString, z: nat, k: nat)
    requires |params| < 0x8000_0000_0000_0000 && IsSign(sign)
    ensures var v := Signed(sign, k);
      FindBindParam(params, ['$' as int] + Written(sign, z, k)) ==
      if |params| < v || !FitsInt64(v) then NotExist
      else if v <= 0 then OutOfRange
      else Found(params[v - 1])
  {
    AtoiReads(sign, z, k);
    hide Atoi, Written;
    assert (['$' as int] + Written(sign, z, k))[1..] == Written(sign, z, k);
  }

  lemma OnlyWritten(s: GoString) returns (sign: GoString, z: nat, k: nat)
    requires Atoi(s).Some?
    ensures IsSign(sign) && s == Written(sign, z, k) && FitsInt64(Signed(sign, k)) && Atoi(s) == Some(Signed(sign, k))
  {
    hide Digits, Decimal, Zeros;
    if s != [] && (s[0] == PLUS || s[0] == MINUS) {
      sign := [s[0]];
      z, k := OnlyDecimal(s[1..]);
      assert s == sign + s[1..];
    } else {
      sign := [];
      z, k := OnlyDecimal(s);
      assert sign + s == s;
    }
  }

  /** Nothing else does: every other name does not exist. */
  lemma OnlyNumbersAreFound(params: seq<BindParam>, id: GoString) returns (sign: GoString, z: nat, k: nat)
    requires FindBindParam(params, id) != NotExist
    ensures IsSign(sign) && id == ['$' as int] + Written(sign, z, k) && FitsInt64(Signed(sign, k))
            && Signed(sign, k) <= |params|
  {
    hide Atoi, Written;
    sign, z, k := OnlyWritten(id[1..]);
    assert id == [DOLLAR] + id[1..];
  }
}
