/**
 * The values the YAML loader hands to ignite.py, Python's truthiness on them
 * (`bool(v)`, `if v:`) and Python's `int(v)` for the port numbers.
 */
module Values {

  import opened Wrappers
  import Text

  /** A loaded YAML value (floating-point numbers are not modelled). */
  datatype Value =
    | Null
    | Bool(b: bool)
    | Int(i: int)
    | Str(s: string)
    | List(items: seq<Value>)
    | Dict(entries: map<string, Value>)

  /** Python's `bool(v)`: false exactly for None, False, 0 and empty containers. */
  predicate Truthy(v: Value)
    ensures !Truthy(v) <==> v in {Null, Bool(false), Int(0), Str(""), List([]), Dict(map[])}
  {
    match v
    case Null => false
    case Bool(b) => b
    case Int(i) => i != 0
    case Str(s) => s != ""
    case List(items) => items != []
    case Dict(entries) => entries != map[]
  }

  /** The errors `int(v)` raises. */
  datatype IntError =
    | NotAnIntegerLiteral(text: string)  // ValueError: a string that is not a base-10 literal
    | TooManyDigits(text: string)        // ValueError: a literal over the digit limit
    | NotANumber(value: Value)           // TypeError: None, a list or a mapping

  predicate IsDigit(c: char) {
    '0' <= c <= '9'
  }

  /** Decimal digits in which single underscores may separate two digits. */
  predicate IsDigitGroups(d: string) {
    && d != []
    && IsDigit(d[0])
    && IsDigit(d[|d| - 1])
    && (forall k :: 0 <= k < |d| ==> IsDigit(d[k]) || d[k] == '_')
    && (forall k :: 0 <= k < |d| - 1 && d[k] == '_' ==> IsDigit(d[k + 1]))
  }

  /** The number the digits of `d` spell, underscores ignored. */
  function DigitsValue(d: string): nat
    requires forall k :: 0 <= k < |d| ==> IsDigit(d[k]) || d[k] == '_'
  {
    if d == [] then 0
    else if d[|d| - 1] == '_' then DigitsValue(d[..|d| - 1])
    else
      assert IsDigit(d[|d| - 1]);
      10 * DigitsValue(d[..|d| - 1]) + (d[|d| - 1] as int - '0' as int)
  }

  /** The number of digits in `d`, underscores not counted. */
  function DigitCount(d: string): (n: nat)
    ensures n <= |d|
  {
    if d == [] then 0
    else DigitCount(d[..|d| - 1]) + (if IsDigit(d[|d| - 1]) then 1 else 0)
  }

  /** The default limit on the digits of a decimal literal that `int()` reads
      and `str()` writes (`sys.int_info.default_max_str_digits`, Python 3.11
      and later). */
  const MaxStrDigits := 4300

  /** The whitespace `int()` skips around a literal. CPython maps every
      non-ASCII character that `str.isspace` accepts to a space, but among the
      ASCII characters skips only space, tab, line feed, vertical tab, form feed
      and carriage return: the separators U+001C to U+001F are not skipped,
      although `str.strip` removes them. */
  predicate IsIntSpace(c: char) {
    Text.IsSpace(c) && !('\U{1c}' <= c <= '\U{1f}')
  }

  /** `s` without its leading `int()` whitespace. */
  function SkipIntSpace(s: string): (r: string)
    ensures |r| <= |s| && r == s[|s| - |r|..]
    ensures forall k :: 0 <= k < |s| - |r| ==> IsIntSpace(s[k])
    ensures r == [] || !IsIntSpace(r[0])
  {
    if s != [] && IsIntSpace(s[0]) then SkipIntSpace(s[1..]) else s
  }

  /** `s` without its trailing `int()` whitespace. */
  function DropIntSpace(s: string): (r: string)
    ensures |r| <= |s| && r == s[..|r|]
    ensures forall k :: |r| <= k < |s| ==> IsIntSpace(s[k])
    ensures r == [] || !IsIntSpace(r[|r| - 1])
  {
    if s != [] && IsIntSpace(s[|s| - 1]) then DropIntSpace(s[..|s| - 1]) else s
  }

  /** `s` without its leading and trailing `int()` whitespace. */
  function TrimIntSpace(s: string): string {
    DropIntSpace(SkipIntSpace(s))
  }

  /** A trimmed literal without its sign. */
  function Unsigned(t: string): (d: string)
    ensures d == t || (t != [] && (t[0] == '+' || t[0] == '-') && d == t[1..])
  {
    if t != [] && (t[0] == '+' || t[0] == '-') then t[1..] else t
  }

  /** `int(s)` for a string: surrounding whitespace, an optional sign, then
      digit groups of at most `MaxStrDigits` digits. */
  function ParseInt(s: string): (r: Result<int, IntError>)
    ensures r.Failure? ==> r.error == NotAnIntegerLiteral(s) || r.error == TooManyDigits(s)
    ensures r.Failure? && r.error == TooManyDigits(s) ==> DigitCount(TrimIntSpace(s)) > MaxStrDigits
    ensures r.Success? ==> DigitCount(TrimIntSpace(s)) <= MaxStrDigits
  {
    var t := TrimIntSpace(s);
    var d := Unsigned(t);
    CountUnsigned(t);
    if !IsDigitGroups(d) then Failure(NotAnIntegerLiteral(s))
    else if DigitCount(d) > MaxStrDigits then Failure(TooManyDigits(s))
    else
      var magnitude: int := DigitsValue(d);
      Success(if t[0] == '-' then -magnitude else magnitude)
  }

  /** A sign is not a digit. */
  lemma CountUnsigned(t: string)
    ensures DigitCount(Unsigned(t)) == DigitCount(t)
  {
    if Unsigned(t) != t {
      assert t == [t[0]] + t[1..];
      DigitCountAppend([t[0]], t[1..]);
      assert [t[0]][..0] == [];
    }
  }

  /** Counting digits splits over a concatenation. */
  lemma {:induction false} DigitCountAppend(a: string, b: string)
    ensures DigitCount(a + b) == DigitCount(a) + DigitCount(b)
  {
    if b == [] {
      assert a + b == a;
    } else {
      var ab := a + b;
      assert ab[..|ab| - 1] == a + b[..|b| - 1];
      DigitCountAppend(a, b[..|b| - 1]);
    }
  }

  /** `int(v)` for a loaded value. */
  function ToInt(v: Value): (r: Result<int, IntError>)
    ensures v.Int? ==> r == Success(v.i)
    ensures v.Bool? ==> r == Success(if v.b then 1 else 0)
    ensures (v.Null? || v.List? || v.Dict?) ==> r == Failure(NotANumber(v))
  {
    match v
    case Int(i) => Success(i)
    case Bool(b) => Success(if b then 1 else 0)
    case Str(s) => ParseInt(s)
    case _ => Failure(NotANumber(v))
  }

  // ---------------------------------------------------------------------------
  // int() reads back what str() writes

  function DigitChar(d: nat): (c: char)
    requires d < 10
    ensures IsDigit(c) && c as int - '0' as int == d
  {
    ('0' as int + d) as char
  }

  /** Python's `str(n)` for a natural number. */
  function ShowNat(n: nat): (s: string)
    ensures s != [] && forall k :: 0 <= k < |s| ==> IsDigit(s[k])
  {
    if n < 10 then [DigitChar(n)] else ShowNat(n / 10) + [DigitChar(n % 10)]
  }

  /** Python's `str(n)`. */
  function Show(n: int): string {
    if n < 0 then "-" + ShowNat(-n) else ShowNat(n)
  }

  lemma {:induction false} ShowNatDigits(n: nat)
    ensures IsDigitGroups(ShowNat(n)) && DigitsValue(ShowNat(n)) == n
  {
    var s := ShowNat(n);
    if n >= 10 {
      ShowNatDigits(n / 10);
      assert s[..|s| - 1] == ShowNat(n / 10);
    }
  }

  lemma DigitIsNotSpace(c: char)
    requires IsDigit(c)
    ensures !IsIntSpace(c) && c != '+' && c != '-'
  {
  }

  /** `str(n)` neither starts nor ends with `int()` whitespace. */
  lemma ShowEnds(n: int)
    ensures var x := Show(n); x != [] && !IsIntSpace(x[0]) && !IsIntSpace(x[|x| - 1])
  {
    var x := Show(n);
    var m: nat := if n < 0 then -n else n;
    var digits := ShowNat(m);
    DigitIsNotSpace(digits[0]);
    DigitIsNotSpace(digits[|digits| - 1]);
    if n < 0 {
      assert x == "-" + digits && x[|x| - 1] == digits[|digits| - 1];
    }
  }

  /** In a string of digits every character counts. */
  lemma {:induction false} DigitCountOfDigits(d: string)
    requires forall k :: 0 <= k < |d| ==> IsDigit(d[k])
    ensures DigitCount(d) == |d|
  {
    if d != [] {
      DigitCountOfDigits(d[..|d| - 1]);
    }
  }

  /** The number of digits `str(n)` writes, its sign not counted. */
  function ShowDigits(n: int): (k: nat)
    ensures k >= 1
  {
    |ShowNat(if n < 0 then -n else n)|
  }

  /** `int(str(n)) == n`, also for the string form of a port number in the
      configuration, for every `n` that `str()` writes within the digit limit. */
  lemma ParseShow(n: int)
    requires ShowDigits(n) <= MaxStrDigits
    ensures ParseInt(Show(n)) == Success(n)
    ensures ToInt(Str(Show(n))) == Success(n)
  {
    var s := Show(n);
    var m: nat := if n < 0 then -n else n;
    var digits := ShowNat(m);
    ShowNatDigits(m);
    DigitCountOfDigits(digits);
    ShowEnds(n);
    DigitIsNotSpace(digits[0]);
    if n < 0 {
      assert s == "-" + digits;
      assert s[1..] == digits;
    } else {
      assert s == digits;
    }
    assert TrimIntSpace(s) == s;
  }

  predicate AllIntSpace(w: string) {
    forall k :: 0 <= k < |w| ==> IsIntSpace(w[k])
  }

  lemma SkipIntSpacePrefix(w: string, x: string)
    requires AllIntSpace(w) && x != [] && !IsIntSpace(x[0])
    ensures SkipIntSpace(w + x) == x
  {
    var s := w + x;
    assert s[|w|..] == x;
  }

  lemma DropIntSpaceSuffix(x: string, w: string)
    requires AllIntSpace(w) && x != [] && !IsIntSpace(x[|x| - 1])
    ensures DropIntSpace(x + w) == x
  {
    var s := x + w;
    assert s[..|x|] == x;
  }

  /** A literal whose first and last characters are not `int()` whitespace
      keeps them when its surrounding whitespace is trimmed. */
  lemma TrimIntSpaceSurrounded(w1: string, x: string, w2: string)
    requires AllIntSpace(w1) && AllIntSpace(w2)
    requires x != [] && !IsIntSpace(x[0]) && !IsIntSpace(x[|x| - 1])
    ensures TrimIntSpace(w1 + x + w2) == x
  {
    SkipIntSpacePrefix(w1, x + w2);
    assert w1 + x + w2 == w1 + (x + w2);
    DropIntSpaceSuffix(x, w2);
  }

  /** `int()` skips its whitespace around the literal: `int(w1 + str(n) + w2) == n`
      within the digit limit. */
  lemma ParseShowSurrounded(w1: string, n: int, w2: string)
    requires AllIntSpace(w1) && AllIntSpace(w2)
    requires ShowDigits(n) <= MaxStrDigits
    ensures ParseInt(w1 + Show(n) + w2) == Success(n)
  {
    ShowEnds(n);
    TrimIntSpaceSurrounded(w1, Show(n), w2);
    ParseShow(n);
    ParseIntOfTrimmed(w1 + Show(n) + w2, Show(n));
  }

  /** `int()` reads only what is left after trimming. */
  lemma ParseIntOfTrimmed(s: string, x: string)
    requires TrimIntSpace(s) == TrimIntSpace(x)
    requires ParseInt(x).Success?
    ensures ParseInt(s) == ParseInt(x)
  {
  }

  /** Trimming keeps a separator U+001C to U+001F at the front. */
  lemma TrimKeepsSeparator(c: char, t: string)
    requires '\U{1c}' <= c <= '\U{1f}'
    ensures var r := TrimIntSpace([c] + t); r != [] && r[0] == c
  {
    var s := [c] + t;
    assert SkipIntSpace(s) == s;
  }

  /** `int()` refuses a literal that starts with one of the separators
      U+001C to U+001F, although `str.isspace` accepts them. */
  lemma IntRefusesSeparators(c: char, t: string)
    requires '\U{1c}' <= c <= '\U{1f}'
    ensures Text.IsSpace(c)
    ensures ParseInt([c] + t) == Failure(NotAnIntegerLiteral([c] + t))
  {
    TrimKeepsSeparator(c, t);
    assert !IsDigit(c);
  }

  /** `int()` refuses a well-formed literal of more than `MaxStrDigits`
      digits, wherever its sign and surrounding whitespace. */
  lemma TooManyDigitsRefused(w1: string, sign: string, d: string, w2: string)
    requires AllIntSpace(w1) && AllIntSpace(w2)
    requires sign == "" || sign == "+" || sign == "-"
    requires IsDigitGroups(d) && DigitCount(d) > MaxStrDigits
    ensures var s := w1 + (sign + d) + w2; ParseInt(s) == Failure(TooManyDigits(s))
  {
    var s := w1 + (sign + d) + w2;
    TrimmedLiteral(w1, sign, d, w2);
    TooManyDigitsTrimmed(s, d);
  }

  lemma TrimmedLiteral(w1: string, sign: string, d: string, w2: string)
    requires AllIntSpace(w1) && AllIntSpace(w2)
    requires sign == "" || sign == "+" || sign == "-"
    requires IsDigitGroups(d)
    ensures Unsigned(TrimIntSpace(w1 + (sign + d) + w2)) == d
  {
    SignedLiteralEnds(sign, d);
    TrimIntSpaceSurrounded(w1, sign + d, w2);
  }

  lemma TooManyDigitsTrimmed(s: string, d: string)
    requires Unsigned(TrimIntSpace(s)) == d
    requires IsDigitGroups(d) && DigitCount(d) > MaxStrDigits
    ensures ParseInt(s) == Failure(TooManyDigits(s))
  {
  }

  /** A signed literal neither starts nor ends with `int()` whitespace, and
      loses exactly its sign in `Unsigned`. */
  lemma SignedLiteralEnds(sign: string, d: string)
    requires sign == "" || sign == "+" || sign == "-"
    requires d != [] && IsDigit(d[0]) && IsDigit(d[|d| - 1])
    ensures var x := sign + d; !IsIntSpace(x[0]) && !IsIntSpace(x[|x| - 1]) && Unsigned(x) == d
  {
    var x := sign + d;
    DigitIsNotSpace(d[0]);
    DigitIsNotSpace(d[|d| - 1]);
    assert x[|x| - 1] == d[|d| - 1];
    if sign != "" {
      assert x[0] == sign[0] && x[1..] == d;
    }
  }
}
