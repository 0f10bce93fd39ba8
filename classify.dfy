/**
 * The grouping keys used to reorganise a folder: the file-type key taken from
 * the extension of the base name (smartfiletool.py line 43) and the YYYY-MM
 * key taken from the modification month (line 57).
 */
module Classify {
  import opened Wrappers
  import opened Paths

  /** Index of the last '.' in s, if s has one. */
  function LastDot(s: string): (r: Option<nat>)
    ensures r.Some? ==> r.value < |s| && s[r.value] == '.' && '.' !in s[r.value + 1..]
    ensures r.None? ==> '.' !in s
  {
    if s == [] then None
    else if s[|s| - 1] == '.' then Some(|s| - 1)
    else LastDot(s[..|s| - 1])
  }

  predicate AllDots(s: string)
  {
    forall i :: 0 <= i < |s| ==> s[i] == '.'
  }

  /**
   * The extension half of os.path.splitext, for a base name: from the last '.'
   * to the end, unless only dots come before that '.' (a leading dot does not
   * start an extension), in which case it is empty.
   */
  function NameExtension(name: string): (r: string)
    requires '/' !in name
    ensures r == [] || (r[0] == '.' && '.' !in r[1..] && '/' !in r)
  {
    match LastDot(name)
    case None => []
    case Some(i) =>
      if AllDots(name[..i]) then []
      else
        assert forall c :: c in name[i..] ==> c in name;
        name[i..]
  }

  const NoExt := "no_ext"

  /** The type key of a base name: its extension without the dot, case kept, or "no_ext" when that is empty. */
  function NameKey(name: string): (r: string)
    requires '/' !in name
    ensures r != [] && r[0] != '/' && '/' !in r && '.' !in r
  {
    var e := NameExtension(name);
    if |e| > 1 then
      assert forall c :: c in e[1..] ==> c in e;
      e[1..]
    else NoExt
  }

  /** os.path.splitext(path)[1][1:] or 'no_ext': only the base name of the path matters. */
  function TypeKey(p: Path): (r: string)
    ensures r != [] && r[0] != '/' && '/' !in r && '.' !in r
  {
    NameKey(Basename(p))
  }

  /** A name "stem.ext" with a non-empty dot-free ext and a stem that is not all dots is keyed by ext, as written. */
  lemma ExtensionKey(name: string, stem: string, ext: string)
    requires '/' !in name && name == stem + "." + ext
    requires ext != [] && '.' !in ext
    requires !AllDots(stem)
    ensures NameKey(name) == ext
  {
    var r := LastDot(name);
    assert name[|stem|] == '.';
    assert r == Some(|stem|);
    assert name[..|stem|] == stem;
    assert name[|stem|..] == "." + ext;
  }

  /** A name made of leading dots followed by dot-free text (".bashrc", "README") has no extension. */
  lemma NoExtensionKey(name: string, dots: string, rest: string)
    requires '/' !in name && name == dots + rest
    requires AllDots(dots) && '.' !in rest
    ensures NameKey(name) == NoExt
  {
    var r := LastDot(name);
    if r.Some? {
      assert name[..r.value] == dots[..r.value];
    }
  }

  /** A name ending in '.' ("file.") has no extension text after the dot, so it is keyed "no_ext". */
  lemma TrailingDotKey(name: string)
    requires '/' !in name && name != [] && name[|name| - 1] == '.'
    ensures NameKey(name) == NoExt
  {
    assert LastDot(name) == Some(|name| - 1);
  }

  // ---------------------------------------------------------------------------
  // The YYYY-MM key
  // ---------------------------------------------------------------------------

  /** The years and months Python's datetime can hold. */
  type Year = y: int | 1 <= y <= 9999 witness 1
  type Month = m: int | 1 <= m <= 12 witness 1

  datatype YearMonth = YearMonth(year: Year, month: Month)

  function Pow10(n: nat): (r: nat)
    ensures r >= 1
  {
    if n == 0 then 1 else 10 * Pow10(n - 1)
  }

  predicate IsDigit(c: char)
  {
    '0' <= c <= '9'
  }

  /** The low `width` decimal digits of n, most significant first, padded with '0'. */
  function Digits(n: nat, width: nat): (r: string)
    ensures |r| == width
    ensures forall i :: 0 <= i < |r| ==> IsDigit(r[i])
  {
    if width == 0 then []
    else Digits(n / 10, width - 1) + [('0' as int + n % 10) as char]
  }

  /** The number a string of decimal digits denotes. */
  function DecimalValue(s: string): nat
    requires forall i :: 0 <= i < |s| ==> IsDigit(s[i])
  {
    if s == [] then 0
    else
      assert IsDigit(s[|s| - 1]);
      DecimalValue(s[..|s| - 1]) * 10 + (s[|s| - 1] as int - '0' as int)
  }

  /** Zero-padded digits read back give the number they were written from. */
  lemma {:induction false} DigitsValue(n: nat, width: nat)
    requires n < Pow10(width)
    ensures DecimalValue(Digits(n, width)) == n
  {
    if width > 0 {
      var d := Digits(n, width);
      assert n / 10 < Pow10(width - 1);
      DigitsValue(n / 10, width - 1);
      assert d[..|d| - 1] == Digits(n / 10, width - 1);
    }
  }

  /** strftime('%Y-%m'): four-digit year, '-', two-digit month. */
  function DateKey(d: YearMonth): (r: string)
    ensures |r| == 7 && r[4] == '-'
    ensures r[0] != '/' && '/' !in r
  {
    Digits(d.year, 4) + "-" + Digits(d.month, 2)
  }

  /** Two modification months give the same folder name exactly when they are the same month. */
  lemma DateKeyInjective(a: YearMonth, b: YearMonth)
    ensures DateKey(a) == DateKey(b) <==> a == b
  {
    if DateKey(a) == DateKey(b) {
      assert Pow10(4) == 10000 && Pow10(2) == 100;
      assert Digits(a.year, 4) == DateKey(a)[..4] == DateKey(b)[..4] == Digits(b.year, 4);
      assert Digits(a.month, 2) == DateKey(a)[5..] == DateKey(b)[5..] == Digits(b.month, 2);
      DigitsValue(a.year, 4);
      DigitsValue(b.year, 4);
      DigitsValue(a.month, 2);
      DigitsValue(b.month, 2);
    }
  }
}
