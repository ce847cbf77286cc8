/** The assistant's log level, read from the `LOG_LEVEL` environment variable. */
module Logger {
  import opened Common
  import opened Strings

  datatype LogLevel = DEBUG | INFO | WARN | ERROR
  {
    function Value(): (n: nat)
      ensures n <= 3
    {
      match this
      case DEBUG => 0
      case INFO => 1
      case WARN => 2
      case ERROR => 3
    }
  }

  function LevelOf(n: int): (l: LogLevel)
    requires 0 <= n <= 3
    ensures l.Value() == n
  {
    if n == 0 then DEBUG else if n == 1 then INFO else if n == 2 then WARN else ERROR
  }

  /** The value of `c` as a digit in base `radix` (10 or 16). */
  function DigitValue(c: char, radix: nat): Option<nat>
  {
    if '0' <= c <= '9' then Some(c as int - '0' as int)
    else if radix == 16 && 'a' <= c <= 'f' then Some(c as int - 'a' as int + 10)
    else if radix == 16 && 'A' <= c <= 'F' then Some(c as int - 'A' as int + 10)
    else None
  }

  /** The end of the run of base-`radix` digits starting at `i`. */
  function DigitsEnd(s: string, i: nat, radix: nat): (j: nat)
    requires i <= |s|
    ensures i <= j <= |s| && (j == |s| || DigitValue(s[j], radix).None?)
    ensures forall k | i <= k < j :: DigitValue(s[k], radix).Some?
    decreases |s| - i
  {
    if i == |s| || DigitValue(s[i], radix).None? then i else DigitsEnd(s, i + 1, radix)
  }

  /** The number the digits `d` spell in base `radix`. */
  function ValueOf(d: string, radix: nat): nat
    requires forall k | 0 <= k < |d| :: DigitValue(d[k], radix).Some?
  {
    if d == [] then 0 else ValueOf(d[..|d| - 1], radix) * radix + DigitValue(d[|d| - 1], radix).value
  }

  /** The end of the leading white space. */
  function SpaceEnd(s: string, i: nat): (j: nat)
    requires i <= |s|
    ensures i <= j <= |s| && (j == |s| || !IsJsSpace(s[j]))
    decreases |s| - i
  {
    if i == |s| || !IsJsSpace(s[i]) then i else SpaceEnd(s, i + 1)
  }

  /** The digits after the sign: a `0x` or `0X` prefix selects base 16, and the longest
      run of digits that follows is read; `None` when that run is empty. */
  function ParseDigits(u: string): Option<nat>
  {
    var hex := |u| >= 2 && u[0] == '0' && (u[1] == 'x' || u[1] == 'X');
    var radix := if hex then 16 else 10;
    var w := if hex then u[2..] else u;
    var n := DigitsEnd(w, 0, radix);
    if n == 0 then None else Some(ValueOf(w[..n], radix))
  }

  /** `parseInt(s)` with no radix: leading white space and one sign are skipped before the
      digits; `None` is `NaN`. */
  function ParseInt(s: string): Option<int>
  {
    var t := s[SpaceEnd(s, 0)..];
    if |t| > 0 && t[0] == '-' then
      (match ParseDigits(t[1..]) case None => None case Some(v) => Some(-(v as int)))
    else if |t| > 0 && t[0] == '+' then
      (match ParseDigits(t[1..]) case None => None case Some(v) => Some(v))
    else
      (match ParseDigits(t) case None => None case Some(v) => Some(v))
  }

  /** `getLogLevel`: unset, unreadable or out of range gives INFO. */
  function GetLogLevel(env: Option<string>): (l: LogLevel)
    ensures env.None? ==> l == INFO
    ensures env.Some? && ParseInt(env.value).None? ==> l == INFO
    ensures env.Some? && ParseInt(env.value).Some? ==>
              var n := ParseInt(env.value).value;
              (0 <= n <= 3 ==> l.Value() == n) && (n < 0 || n > 3 ==> l == INFO)
  {
    match env
    case None => INFO
    case Some(level) =>
      match ParseInt(level)
      case None => INFO
      case Some(n) => if n < 0 || n > 3 then INFO else LevelOf(n)
  }

  /** Reading back a number's decimal digits gives the number. */
  lemma {:induction false} DecimalValue(n: nat)
    ensures forall k | 0 <= k < |NatToString(n)| :: DigitValue(NatToString(n)[k], 10).Some?
    ensures ValueOf(NatToString(n), 10) == n
  {
    if n >= 10 {
      DecimalValue(n / 10);
      var d := NatToString(n);
      assert d[..|d| - 1] == NatToString(n / 10);
    }
  }

  /** A number's decimal digits followed by anything that is neither a digit nor an `x`
      (which would turn a leading "0" into a hexadecimal prefix) read as the number. */
  lemma DecimalDigits(n: nat, rest: string)
    requires rest == [] || (!IsDigit(rest[0]) && rest[0] != 'x' && rest[0] != 'X')
    ensures ParseDigits(NatToString(n) + rest) == Some(n)
  {
    var d := NatToString(n);
    var s := d + rest;
    NotHex(n, rest);
    DecimalValue(n);
    DigitsThenRest(d, rest);
    assert s[..|d|] == d;
  }

  lemma NotHex(n: nat, rest: string)
    requires rest == [] || (!IsDigit(rest[0]) && rest[0] != 'x' && rest[0] != 'X')
    ensures var s := NatToString(n) + rest; !(|s| >= 2 && s[0] == '0' && (s[1] == 'x' || s[1] == 'X'))
  {
    var d := NatToString(n);
    var s := d + rest;
    assert s[0] == d[0];
    if n < 10 {
      assert |d| == 1;
      if |s| >= 2 {
        assert s[1] == rest[0];
      }
    } else {
      assert |d| >= 2 && s[1] == d[1];
    }
  }

  lemma DigitsThenRest(d: string, rest: string)
    requires forall k | 0 <= k < |d| :: DigitValue(d[k], 10).Some?
    requires rest == [] || !IsDigit(rest[0])
    ensures DigitsEnd(d + rest, 0, 10) == |d|
  {
    var s := d + rest;
    forall k | 0 <= k < |d| ensures DigitValue(s[k], 10).Some? {
      assert s[k] == d[k];
    }
    if rest != [] {
      assert s[|d|] == rest[0];
      assert DigitValue(s[|d|], 10).None?;
    }
  }

  /** A level written in decimal and followed by anything that is not a digit, such as
      "2" or "3 # errors only", selects that level when it is at most 3 and INFO otherwise. */
  lemma DecimalLevel(n: nat, rest: string)
    requires rest == [] || (!IsDigit(rest[0]) && rest[0] != 'x' && rest[0] != 'X')
    ensures GetLogLevel(Some(NatToString(n) + rest)) == if n <= 3 then LevelOf(n) else INFO
  {
    var d := NatToString(n);
    var s := d + rest;
    assert s[0] == d[0] && IsDigit(s[0]);
    assert SpaceEnd(s, 0) == 0;
    assert s[0..] == s;
    DecimalDigits(n, rest);
  }

  /** "-0" reads as DEBUG, while any other negative number gives INFO. */
  lemma NegativeLevel(n: nat)
    ensures GetLogLevel(Some("-" + NatToString(n))) == if n == 0 then DEBUG else INFO
  {
    var d := NatToString(n);
    var s := "-" + d;
    assert SpaceEnd(s, 0) == 0;
    assert s[0..] == s && s[1..] == d;
    DecimalDigits(n, []);
    assert d + [] == d;
  }

  /** A hexadecimal prefix is honoured: "0x3" selects ERROR. */
  lemma HexLevel()
    ensures ParseDigits("0x3") == Some(3)
  {
    var w := "0x3"[2..];
    assert w == "3";
    assert DigitsEnd(w, 0, 16) == 1;
    assert w[..1] == "3";
  }
}
