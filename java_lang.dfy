/** The parts of the Java platform that the PSF and SNX formats lean on:
    UTF-16 strings, the exceptions the code throws, decimal rendering and
    parsing of integers (Integer.toString / Integer.parseInt and their
    Byte, Short and Long siblings), Boolean.parseBoolean, String.split and
    Reader.read(). */
module JavaLang {

  /** One UTF-16 code unit: what a Java `char` holds. */
  type Unit = x: int | 0 <= x < 0x10000

  /** A (non-null) java.lang.String, as its code units. */
  type JString = seq<Unit>

  /** What `(char) -1` gives: a read past the end of a stream, cast to char. */
  const EOF_CHAR: Unit := 0xFFFF

  datatype Option<T> = None | Some(value: T)

  /** The exceptions the modelled code throws (or lets escape). */
  datatype Error =
    | NullPointer          // NullPointerException (also the "no writer"/"no reader" guards)
    | NumberFormat         // NumberFormatException from a parse
    | DecimalNumber        // NumberFormatException "... is a decimal number"
    | NoNumber             // NumberFormatException "... is no number"
    | NoBoolean            // NumberFormatException "... is no boolean value"
    | IllegalArgument      // IllegalArgumentException (unknown enum name, unknown element class)
    | IndexOutOfBounds     // String/array/ArrayList index out of range
    | NegativeArraySize    // NegativeArraySizeException
    | ClassCast            // ClassCastException from an element cast
    | FileFormat           // FileFormatException
    | TypeMismatch         // SNX TypeException
    | DuplicateKey         // SNX "the key ... is already taken"
    | Corrupted            // SNX "The DataTypeList got currupted"
    | UnsupportedType      // SNX "The type of the array is not permitted"

  datatype Result<T> = Ok(value: T) | Err(error: Error) {
    predicate IsFailure() { Err? }
    function PropagateFailure<U>(): Result<U> requires Err? { Err(error) }
    function Extract(): T requires Ok? { value }
  }

  /** The code units of a string literal of the source (all of them are ASCII). */
  function Lit(s: string): (r: JString)
    ensures |r| == |s|
    ensures forall i :: 0 <= i < |s| && (s[i] as int) < 0x10000 ==> r[i] == s[i] as int
  {
    seq(|s|, i requires 0 <= i < |s| => if (s[i] as int) < 0x10000 then s[i] as int else 0xFFFD)
  }

  // ---------------------------------------------------------------------
  // Integer widths
  // ---------------------------------------------------------------------

  const BYTE_MIN := -0x80
  const BYTE_MAX := 0x7F
  const SHORT_MIN := -0x8000
  const SHORT_MAX := 0x7FFF
  const INT_MIN := -0x8000_0000
  const INT_MAX := 0x7FFF_FFFF
  const LONG_MIN := -0x8000_0000_0000_0000
  const LONG_MAX := 0x7FFF_FFFF_FFFF_FFFF

  /** The four integral Java types the formats store. */
  datatype IntType = JavaByte | JavaShort | JavaInt | JavaLong {
    function Min(): int {
      match this
      case JavaByte => BYTE_MIN
      case JavaShort => SHORT_MIN
      case JavaInt => INT_MIN
      case JavaLong => LONG_MIN
    }
    function Max(): int {
      match this
      case JavaByte => BYTE_MAX
      case JavaShort => SHORT_MAX
      case JavaInt => INT_MAX
      case JavaLong => LONG_MAX
    }
    predicate Holds(n: int) { Min() <= n <= Max() }
  }

  // ---------------------------------------------------------------------
  // Decimal rendering and parsing
  // ---------------------------------------------------------------------

  const ZERO: Unit := 48
  const MINUS: Unit := 45
  const PLUS: Unit := 43

  predicate IsDigit(c: Unit) { 48 <= c <= 57 }

  predicate AllDigits(s: JString) { forall i :: 0 <= i < |s| ==> IsDigit(s[i]) }

  /** The decimal digits of a natural number, most significant first, no leading zeros. */
  function Digits(n: nat): (r: JString)
    ensures |r| > 0 && AllDigits(r)
    decreases n
  {
    if n < 10 then [ZERO + n] else Digits(n / 10) + [ZERO + n % 10]
  }

  /** The number a string of decimal digits denotes. */
  function DigitsValue(s: JString): nat
    requires AllDigits(s)
    decreases |s|
  {
    if s == [] then 0 else DigitsValue(s[..|s| - 1]) * 10 + (s[|s| - 1] - ZERO)
  }

  /** Integer.toString, Long.toString, Short.toString, Byte.toString. */
  function ToDecimal(n: int): (r: JString)
    ensures |r| > 0
  {
    if n < 0 then [MINUS] + Digits(-n) else Digits(n)
  }

  /** Integer.parseInt, Long.parseLong, Short.parseShort and Byte.parseByte for
      the range [lo, hi] of the target type: an optional sign, then at least one
      decimal digit, and a value inside the range; anything else throws
      NumberFormatException (None here). */
  function ParseDecimal(s: JString, kind: IntType): (r: Option<int>)
    ensures r.Some? ==> kind.Holds(r.value)
    ensures r.Some? ==> |s| > 0
  {
    if |s| == 0 then None
    else
      var signed := s[0] == MINUS || s[0] == PLUS;
      var body := if signed then s[1..] else s;
      if |body| == 0 || !AllDigits(body) then None
      else
        var v: int := if s[0] == MINUS then -(DigitsValue(body) as int) else DigitsValue(body);
        if kind.Holds(v) then Some(v) else None
  }

  lemma {:induction false} DigitsValueOfDigits(n: nat)
    ensures DigitsValue(Digits(n)) == n
    decreases n
  {
    if n >= 10 {
      var d := Digits(n);
      assert d[..|d| - 1] == Digits(n / 10);
      DigitsValueOfDigits(n / 10);
    }
  }

  /** Parsing the rendering of an in-range number gives the number back. */
  lemma DecimalRoundTrip(n: int, kind: IntType)
    requires kind.Holds(n)
    ensures ParseDecimal(ToDecimal(n), kind) == Some(n)
  {
    if n < 0 {
      var s := ToDecimal(n);
      assert s[1..] == Digits(-n);
      DigitsValueOfDigits(-n);
    } else {
      DigitsValueOfDigits(n);
      var s := Digits(n);
      assert IsDigit(s[0]);
    }
  }

  /** Distinct numbers have distinct renderings (so "element_" + i keys never collide). */
  lemma ToDecimalInjective(m: int, n: int)
    requires ToDecimal(m) == ToDecimal(n)
    ensures m == n
  {
    ToDecimalSign(m);
    ToDecimalSign(n);
    if m < 0 && n < 0 {
      var a, b := ToDecimal(m), ToDecimal(n);
      assert a[1..] == Digits(-m) && b[1..] == Digits(-n);
      DigitsValueOfDigits(-m);
      DigitsValueOfDigits(-n);
    } else if m >= 0 && n >= 0 {
      assert ToDecimal(m) == Digits(m) && ToDecimal(n) == Digits(n);
      DigitsValueOfDigits(m);
      DigitsValueOfDigits(n);
    }
  }

  /** A rendering starts with '-' exactly for negative numbers. */
  lemma ToDecimalSign(n: int)
    ensures ToDecimal(n)[0] == MINUS <==> n < 0
  {
    if n >= 0 {
      assert IsDigit(Digits(n)[0]);
    }
  }

  // ---------------------------------------------------------------------
  // Booleans
  // ---------------------------------------------------------------------

  /** ASCII case folding to lower case. */
  function Lower(c: Unit): Unit { if 65 <= c <= 90 then c + 32 else c }

  /** Boolean.parseBoolean: true exactly for "true" ignoring case; false for null. */
  function ParseBoolean(s: Option<JString>): (b: bool)
    ensures b <==> s.Some? && |s.value| == 4 && forall i :: 0 <= i < 4 ==> Lower(s.value[i]) == Lit("true")[i]
  {
    s.Some? && |s.value| == 4 && Lower(s.value[0]) == 116 && Lower(s.value[1]) == 114
      && Lower(s.value[2]) == 117 && Lower(s.value[3]) == 101
  }

  /** Boolean.toString. */
  function BoolText(b: bool): JString { if b then Lit("true") else Lit("false") }

  lemma ParseBooleanOfBoolText(b: bool)
    ensures ParseBoolean(Some(BoolText(b))) == b
  {
  }

  // ---------------------------------------------------------------------
  // String.split(regex) for a regex that matches exactly one code unit
  // ---------------------------------------------------------------------

  /** The pieces between the delimiters, empty ones included. */
  function Pieces(s: JString, isDelim: Unit -> bool): (r: seq<JString>)
    ensures |r| >= 1
    decreases |s|
  {
    if s == [] then [[]]
    else
      var rest := Pieces(s[1..], isDelim);
      if isDelim(s[0]) then [[]] + rest else [[s[0]] + rest[0]] + rest[1..]
  }

  function DropTrailingEmpty(ps: seq<JString>): (r: seq<JString>)
    ensures |r| <= |ps| && r == ps[..|r|]
    ensures |r| > 0 ==> r[|r| - 1] != []
    ensures forall i :: |r| <= i < |ps| ==> ps[i] == []
    decreases |ps|
  {
    if ps == [] then []
    else if ps[|ps| - 1] == [] then DropTrailingEmpty(ps[..|ps| - 1])
    else ps
  }

  /** String.split(regex) with limit 0: split at every match, then drop the
      trailing empty strings; a string with no match at all splits to itself. */
  function JavaSplit(s: JString, isDelim: Unit -> bool): seq<JString>
  {
    if forall i :: 0 <= i < |s| ==> !isDelim(s[i]) then [s]
    else DropTrailingEmpty(Pieces(s, isDelim))
  }

  // ---------------------------------------------------------------------
  // Boxed values, as they reach the list writers
  // ---------------------------------------------------------------------

  /** A Java object handed to the formats: null, one of the nine boxed kinds,
      or an object of another class. A float or double is represented by the
      text Float.toString / Double.toString gives it, and any other object by
      the text its toString gives. */
  datatype JValue =
    | JNull
    | JStr(s: JString)
    | JChar(c: Unit)
    | JByte(b: int)
    | JShort(sh: int)
    | JInt(i: int)
    | JLong(l: int)
    | JFloat(ftext: JString)
    | JDouble(dtext: JString)
    | JBool(z: bool)
    | JOther(otext: JString)
  {
    /** Each boxed integral value lies in the range of its Java type. */
    predicate Valid() {
      match this
      case JByte(b) => JavaByte.Holds(b)
      case JShort(v) => JavaShort.Holds(v)
      case JInt(v) => JavaInt.Holds(v)
      case JLong(v) => JavaLong.Holds(v)
      case _ => true
    }

    /** `toString()`; None stands for the NullPointerException that calling it on null throws. */
    function ToStr(): Option<JString> {
      match this
      case JNull => None
      case JStr(v) => Some(v)
      case JChar(c) => Some([c])
      case JByte(v) => Some(ToDecimal(v))
      case JShort(v) => Some(ToDecimal(v))
      case JInt(v) => Some(ToDecimal(v))
      case JLong(v) => Some(ToDecimal(v))
      case JFloat(t) => Some(t)
      case JDouble(t) => Some(t)
      case JBool(z) => Some(BoolText(z))
      case JOther(t) => Some(t)
    }
  }

  // ---------------------------------------------------------------------
  // java.io.Reader.read(): the medium as a sequence of code units
  // ---------------------------------------------------------------------

  /** `read()` at position `pos`: the next unit, or -1 (without moving) at the end. */
  function ReadUnit(input: JString, pos: nat): (r: (int, nat))
    requires pos <= |input|
    ensures pos <= r.1 <= |input|
    ensures -1 <= r.0 < 0x10000
    ensures r.0 == -1 <==> pos == |input|
    ensures r.0 != -1 ==> r.1 == pos + 1
  {
    if pos < |input| then (input[pos], pos + 1) else (-1, pos)
  }

  /** The `(char)` cast of a value `read()` returned. */
  function CharOf(c: int): Unit
  {
    c % 0x10000
  }

  /** `n` successive `(char) read()` calls, appended one by one. */
  function ReadChars(input: JString, pos: nat, n: int): (r: (JString, nat))
    requires pos <= |input|
    ensures pos <= r.1 <= |input|
    ensures |r.0| == if n <= 0 then 0 else n
    decreases n
  {
    if n <= 0 then ([], pos)
    else
      var (s, q) := ReadChars(input, pos, n - 1);
      var (c, q') := ReadUnit(input, q);
      (s + [CharOf(c)], q')
  }

  /** `s` occurs in `input` at position `pos`. */
  predicate At(input: JString, pos: nat, s: JString)
  {
    pos + |s| <= |input| && input[pos..pos + |s|] == s
  }

  lemma AtWithin(input: JString, pos: nat, s: JString)
    requires At(input, pos, s)
    ensures pos + |s| <= |input|
  {
  }

  lemma AtSplit(input: JString, pos: nat, a: JString, b: JString)
    requires At(input, pos, a + b)
    ensures At(input, pos, a) && At(input, pos + |a|, b)
  {
    assert input[pos..pos + |a|] == (a + b)[..|a|];
    assert input[pos + |a|..pos + |a| + |b|] == (a + b)[|a|..];
  }

  /** Reading |t| characters where `t` stands gives `t` and moves past it. */
  lemma {:induction false} ReadCharsAt(input: JString, pos: nat, t: JString)
    requires At(input, pos, t)
    ensures ReadChars(input, pos, |t|) == (t, pos + |t|)
    decreases |t|
  {
    if |t| > 0 {
      var init := t[..|t| - 1];
      assert input[pos..pos + |init|] == input[pos..pos + |t|][..|init|];
      ReadCharsAt(input, pos, init);
      assert t == init + [t[|t| - 1]];
    }
  }

  /** A token cut short by the end of the stream is padded with (char) -1 = 0xFFFF
      instead of failing. */
  lemma {:induction false} ReadCharsPastEnd(input: JString, n: nat)
    ensures ReadChars(input, |input|, n).1 == |input|
    ensures forall i :: 0 <= i < n ==> ReadChars(input, |input|, n).0[i] == EOF_CHAR
    decreases n
  {
    if n > 0 {
      ReadCharsPastEnd(input, n - 1);
      assert CharOf(-1) == EOF_CHAR;
    }
  }
}
