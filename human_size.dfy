/** `toHumanSize`: a byte count rendered as `String.format("%5d %s", value,
    unit)`, where the unit is chosen by base-1024 thresholds and the value is
    the byte count divided by that unit's factor. */
module HumanSize {
  import opened Wrappers

  datatype Unit = Bytes | KB | MB

  const KB_FACTOR: int := 1024
  const MB_FACTOR: int := 1024 * 1024

  function UnitName(u: Unit): string
  {
    match u
    case Bytes => "Bytes"
    case KB => "KB"
    case MB => "MB"
  }

  function Factor(u: Unit): int
  {
    match u
    case Bytes => 1
    case KB => KB_FACTOR
    case MB => MB_FACTOR
  }

  /** The value and unit `toHumanSize` prints. In the two scaled branches the
      size is positive, so Java's truncating `/=` and Dafny's `/` agree. */
  function Scale(size: int): (int, Unit)
  {
    if size < KB_FACTOR then (size, Bytes)
    else if size < MB_FACTOR then (size / KB_FACTOR, KB)
    else (size / MB_FACTOR, MB)
  }

  /** For a non-negative size the unit is the largest of Bytes, KB and MB
      whose factor does not exceed it (Bytes for 0), and the value is the
      number of whole units in it. A negative size is never scaled. */
  lemma ScaleMeaning(size: int)
    ensures size < 0 ==> Scale(size) == (size, Bytes)
    ensures size >= 0 ==>
      var (v, u) := Scale(size);
      v * Factor(u) <= size < (v + 1) * Factor(u) &&
      (u == MB || size < 1024 * Factor(u)) &&
      (u == Bytes || Factor(u) <= size)
  {
    var (v, u) := Scale(size);
    if size >= 0 && u != Bytes {
      assert v * Factor(u) <= size < (v + 1) * Factor(u) by {
        assert v == size / Factor(u);
      }
    }
  }

  function DigitChar(d: nat): char
    requires d < 10
  {
    "0123456789"[d]
  }

  predicate IsDigit(c: char)
  {
    '0' <= c <= '9'
  }

  predicate AllDigits(s: string)
  {
    forall i :: 0 <= i < |s| ==> IsDigit(s[i])
  }

  function DigitValue(c: char): nat
    requires IsDigit(c)
  {
    (c as int - '0' as int) as nat
  }

  /** Decimal digits of `n`, most significant first, without leading zeros. */
  function Digits(n: nat): (r: string)
    ensures |r| >= 1
  {
    if n < 10 then [DigitChar(n)] else Digits(n / 10) + [DigitChar(n % 10)]
  }

  /** Reads a string of decimal digits back into a number. */
  function ParseDigits(s: string): nat
    requires AllDigits(s)
  {
    if s == [] then 0 else 10 * ParseDigits(s[..|s| - 1]) + DigitValue(s[|s| - 1])
  }

  /** `Digits` writes only digits, starts with a non-zero digit unless the
      number is 0, and reads back as the number it wrote. */
  lemma {:induction false} DigitsRoundTrip(n: nat)
    ensures AllDigits(Digits(n))
    ensures Digits(n)[0] != '0' || n == 0
    ensures ParseDigits(Digits(n)) == n
  {
    if n >= 10 {
      DigitsRoundTrip(n / 10);
      var d := Digits(n);
      assert d[..|d| - 1] == Digits(n / 10);
    }
  }

  /** The `%d` conversion of a long. */
  function Decimal(n: int): string
  {
    if n < 0 then "-" + Digits(-n) else Digits(n)
  }

  /** Right-justifies `s` in a field of `width` characters, as a `%5d`
      width does. */
  function PadLeft(s: string, width: nat): (r: string)
    ensures |r| == if |s| >= width then |s| else width
    ensures r[|r| - |s|..] == s
    ensures forall i :: 0 <= i < |r| - |s| ==> r[i] == ' '
  {
    if |s| >= width then s else seq(width - |s|, _ => ' ') + s
  }

  /** `toHumanSize(size)`. */
  function ToHumanSize(size: int): string
  {
    var (v, u) := Scale(size);
    PadLeft(Decimal(v), 5) + " " + UnitName(u)
  }

  function DropSpaces(s: string): (r: string)
    ensures |r| <= |s| && r == s[|s| - |r|..]
  {
    if s != [] && s[0] == ' ' then DropSpaces(s[1..]) else s
  }

  function ReadUnit(t: string): Option<(string, Unit)>
  {
    if |t| >= 6 && t[|t| - 6..] == " Bytes" then Some((t[..|t| - 6], Bytes))
    else if |t| >= 3 && t[|t| - 3..] == " KB" then Some((t[..|t| - 3], KB))
    else if |t| >= 3 && t[|t| - 3..] == " MB" then Some((t[..|t| - 3], MB))
    else None
  }

  function ReadDecimal(s: string): Option<int>
  {
    if |s| >= 2 && s[0] == '-' && AllDigits(s[1..]) then Some(0 - ParseDigits(s[1..]) as int)
    else if s != [] && AllDigits(s) then Some(ParseDigits(s))
    else None
  }

  /** Reads a line written by `toHumanSize` back into its value and unit. */
  function ReadHumanSize(t: string): Option<(int, Unit)>
  {
    match ReadUnit(t)
    case None => None
    case Some((num, u)) =>
      match ReadDecimal(DropSpaces(num))
      case None => None
      case Some(v) => Some((v, u))
  }

  lemma DropPadding(s: string, width: nat)
    requires s != [] && s[0] != ' '
    ensures DropSpaces(PadLeft(s, width)) == s
    decreases width
  {
    var p := PadLeft(s, width);
    if |s| < width {
      assert p[0] == ' ';
      assert p[1..] == PadLeft(s, width - 1);
      DropPadding(s, width - 1);
    }
  }

  /** A minus sign followed by digits reads as the negated digits. */
  lemma ReadNegative(d: string)
    requires d != [] && AllDigits(d)
    ensures ReadDecimal("-" + d) == Some(0 - ParseDigits(d) as int)
  {
    assert ("-" + d)[1..] == d;
  }

  /** Digits alone read as their value. */
  lemma ReadNonNegative(d: string)
    requires d != [] && AllDigits(d)
    ensures ReadDecimal(d) == Some(ParseDigits(d))
  {
    assert IsDigit(d[0]);
  }

  lemma {:induction false} ReadDecimalRoundTrip(n: int)
    ensures Decimal(n) != [] && Decimal(n)[0] != ' '
    ensures ReadDecimal(Decimal(n)) == Some(n)
  {
    if n < 0 {
      DigitsRoundTrip(-n);
      ReadNegative(Digits(-n));
    } else {
      DigitsRoundTrip(n);
      ReadNonNegative(Digits(n));
      assert IsDigit(Digits(n)[0]);
    }
  }

  lemma ReadUnitOf(p: string, u: Unit)
    ensures ReadUnit(p + " " + UnitName(u)) == Some((p, u))
  {
    var t := p + " " + UnitName(u);
    match u
    case Bytes =>
      assert t[|t| - 6..] == " Bytes";
      assert t[..|t| - 6] == p;
    case KB =>
      assert t[|t| - 1] == 'B';  // so the " Bytes" branch is not taken
      assert t[|t| - 3..] == " KB";
      assert t[..|t| - 3] == p;
    case MB =>
      assert t[|t| - 1] == 'B' && t[|t| - 2] == 'M';
      assert t[|t| - 3..] == " MB";
      assert t[..|t| - 3] == p;
  }

  /** What `toHumanSize` prints determines the value and unit it chose. */
  lemma HumanSizeRoundTrip(size: int)
    ensures ReadHumanSize(ToHumanSize(size)) == Some(Scale(size))
  {
    var (v, u) := Scale(size);
    ReadDecimalRoundTrip(v);
    DropPadding(Decimal(v), 5);
    ReadUnitOf(PadLeft(Decimal(v), 5), u);
  }

  /** The largest size still shown in bytes. */
  lemma LastBytes()
    ensures ToHumanSize(1023) == " 1023 Bytes"
  {
    assert Scale(1023) == (1023, Bytes);
    assert Digits(1023) == "1023" by {
      assert Digits(102) == "102" by { assert Digits(10) == "10"; }
    }
    assert PadLeft("1023", 5) == " 1023";
  }

  /** The smallest size shown in kilobytes. */
  lemma FirstKilobyte()
    ensures ToHumanSize(1024) == "    1 KB"
  {
    assert Scale(1024) == (1, KB);
    assert Decimal(1) == "1";
    assert PadLeft("1", 5) == "    1";
  }

  /** The smallest size shown in megabytes. */
  lemma FirstMegabyte()
    ensures ToHumanSize(1048576) == "    1 MB"
  {
    assert Scale(1048576) == (1, MB);
    assert Decimal(1) == "1";
    assert PadLeft("1", 5) == "    1";
  }
}
