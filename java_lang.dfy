/**
  The bits of the Java platform the login logic leans on: `long` arithmetic,
  `String.valueOf(long)`, the maximum that `Arrays.sort` leaves at the end of
  an array, and `String.split(",")`.
 */
module JavaLang {

  const LONG_MIN: int := -0x8000_0000_0000_0000
  const LONG_MAX: int := 0x7FFF_FFFF_FFFF_FFFF

  /** Java's 64-bit `long`. */
  type Long = x: int | LONG_MIN <= x <= LONG_MAX

  /** `x + 1` on a `long`: wraps around from Long.MAX_VALUE to Long.MIN_VALUE. */
  function Inc(x: Long): (r: Long)
    ensures x < LONG_MAX ==> r > x
    ensures x == LONG_MAX ==> r < x
    ensures (r - (x + 1)) % 0x1_0000_0000_0000_0000 == 0
  {
    if x == LONG_MAX then LONG_MIN else x + 1
  }

  /** The largest element of a non-empty array of longs: what `Arrays.sort(a)` puts at `a[a.length - 1]`. */
  function Max(s: seq<Long>): (m: Long)
    requires |s| > 0
    ensures m in s
    ensures forall i :: 0 <= i < |s| ==> s[i] <= m
  {
    if |s| == 1 then s[0]
    else
      var m' := Max(s[..|s| - 1]);
      if s[|s| - 1] > m' then s[|s| - 1] else m'
  }

  // ---------------------------------------------------------------------------
  // String.valueOf(long)

  predicate IsDigit(c: char) {
    '0' <= c <= '9'
  }

  function DigitChar(d: nat): (c: char)
    requires d < 10
    ensures IsDigit(c)
  {
    ('0' as int + d) as char
  }

  /** The decimal digits of `n`, most significant first, without leading zeros. */
  function Digits(n: nat): (r: string)
    ensures |r| > 0
    ensures forall i :: 0 <= i < |r| ==> IsDigit(r[i])
    decreases n
  {
    if n < 10 then [DigitChar(n)] else Digits(n / 10) + [DigitChar(n % 10)]
  }

  /** `String.valueOf(x)` for an integral `x`: an optional minus sign followed by the digits. */
  function ValueOf(x: int): string {
    if x < 0 then "-" + Digits(-x) else Digits(x)
  }

  /** Reads back a string of decimal digits. */
  function ParseDigits(s: string): nat
    requires forall i :: 0 <= i < |s| ==> IsDigit(s[i])
  {
    if s == [] then 0
    else
      assert IsDigit(s[|s| - 1]);
      ParseDigits(s[..|s| - 1]) * 10 + (s[|s| - 1] as int - '0' as int)
  }

  /** Reads back what `ValueOf` writes. */
  function ParseDecimal(s: string): int
    requires s != [] && (s[0] == '-' || IsDigit(s[0]))
    requires forall i :: 1 <= i < |s| ==> IsDigit(s[i])
  {
    if s[0] == '-' then -(ParseDigits(s[1..]) as int) else ParseDigits(s)
  }

  lemma {:induction false} ParseDigitsOfDigits(n: nat)
    ensures ParseDigits(Digits(n)) == n
    decreases n
  {
    var d := Digits(n);
    if n >= 10 {
      ParseDigitsOfDigits(n / 10);
      assert d[..|d| - 1] == Digits(n / 10);
    }
  }

  /** `ValueOf` loses nothing: the number can be read back from its decimal form. */
  lemma {:induction false} ValueOfRoundTrip(x: int)
    ensures var s := ValueOf(x);
            s != [] && (s[0] == '-' || IsDigit(s[0])) &&
            (forall i :: 1 <= i < |s| ==> IsDigit(s[i])) &&
            ParseDecimal(s) == x
  {
    var s := ValueOf(x);
    if x < 0 {
      ParseDigitsOfDigits(-x);
      assert s[1..] == Digits(-x);
    } else {
      ParseDigitsOfDigits(x);
    }
  }

  /** Distinct numbers have distinct decimal forms. */
  lemma ValueOfInjective(x: int, y: int)
    ensures ValueOf(x) == ValueOf(y) ==> x == y
  {
    ValueOfRoundTrip(x);
    ValueOfRoundTrip(y);
  }

  // ---------------------------------------------------------------------------
  // String.split(",")

  /** The pieces of `s` between its commas, empty ones included: one more piece than there are commas. */
  function Fields(s: string): (r: seq<string>)
    ensures |r| > 0
    decreases |s|
  {
    if s == [] then [[]]
    else
      var rest := Fields(s[1..]);
      if s[0] == ',' then [[]] + rest
      else [[s[0]] + rest[0]] + rest[1..]
  }

  /** The pieces glued back together with commas. */
  function Join(fs: seq<string>): string
    requires |fs| > 0
  {
    if |fs| == 1 then fs[0] else fs[0] + "," + Join(fs[1..])
  }

  /** The empty strings at the end of `fs` removed. */
  function DropTrailingEmpty(fs: seq<string>): (r: seq<string>)
    ensures r <= fs
    ensures forall i :: |r| <= i < |fs| ==> fs[i] == []
    ensures r == [] || r[|r| - 1] != []
  {
    if fs == [] then []
    else if fs[|fs| - 1] == [] then DropTrailingEmpty(fs[..|fs| - 1])
    else fs
  }

  /**
    Java's `s.split(",")`: the pieces between commas, with the trailing empty
    pieces dropped and nothing trimmed; the empty string splits into one empty piece.
   */
  function Split(s: string): seq<string> {
    if s == [] then [[]] else DropTrailingEmpty(Fields(s))
  }

  lemma {:induction false} JoinFields(s: string)
    ensures Join(Fields(s)) == s
    decreases |s|
  {
    if s != [] {
      var rest := Fields(s[1..]);
      JoinFields(s[1..]);
      if s[0] != ',' && |rest| > 1 {
        assert Fields(s)[1..] == rest[1..];
        assert Join(rest) == rest[0] + "," + Join(rest[1..]);
      }
      if s[0] == ',' {
        assert Fields(s)[1..] == rest;
      }
    }
  }

  lemma {:induction false} FieldsHaveNoComma(s: string)
    ensures forall i :: 0 <= i < |Fields(s)| ==> ',' !in Fields(s)[i]
    decreases |s|
  {
    if s != [] {
      FieldsHaveNoComma(s[1..]);
      var rest := Fields(s[1..]);
      if s[0] != ',' {
        assert forall i :: 1 <= i < |Fields(s)| ==> Fields(s)[i] == rest[i];
        assert ',' !in rest[0];
      }
    }
  }

  /**
    What `split(",")` keeps of its input: no piece holds a comma; the pieces are
    the comma-separated fields of `s` in order, of which only trailing empty
    ones are missing; and the fields put back together give `s`.
   */
  lemma SplitSpec(s: string)
    ensures forall i :: 0 <= i < |Split(s)| ==> ',' !in Split(s)[i]
    ensures s != [] ==> Split(s) <= Fields(s)
    ensures s != [] ==> forall i :: |Split(s)| <= i < |Fields(s)| ==> Fields(s)[i] == []
    ensures s != [] ==> Split(s) == [] || Split(s)[|Split(s)| - 1] != []
    ensures Join(Fields(s)) == s
  {
    JoinFields(s);
    FieldsHaveNoComma(s);
    if s != [] {
      var r := Split(s);
      assert forall i :: 0 <= i < |r| ==> r[i] == Fields(s)[i];
    }
  }

  /** One step of Fields on a string given by its first character. */
  lemma FieldsCons(c: char, s: string)
    ensures Fields([c] + s) ==
            if c == ',' then [[]] + Fields(s) else [[c] + Fields(s)[0]] + Fields(s)[1..]
  {
    assert ([c] + s)[1..] == s;
  }

  /** String.split(",") drops trailing empty pieces but keeps inner ones: "a,,b," gives ["a", "", "b"]. */
  lemma SplitDropsTrailingEmpty()
    ensures Split("a,,b,") == ["a", "", "b"]
  {
    FieldsCons(',', "");
    assert [','] + "" == ",";
    assert Fields(",") == ["", ""];
    FieldsCons('b', ",");
    assert ['b'] + "," == "b," && ['b'] + "" == "b" && ["", ""][1..] == [""];
    assert Fields("b,") == ["b", ""];
    FieldsCons(',', "b,");
    assert [','] + "b," == ",b,";
    assert Fields(",b,") == ["", "b", ""];
    FieldsCons(',', ",b,");
    assert [','] + ",b," == ",,b,";
    assert Fields(",,b,") == ["", "", "b", ""];
    FieldsCons('a', ",,b,");
    assert ['a'] + ",,b," == "a,,b," && ['a'] + "" == "a" && ["", "", "b", ""][1..] == ["", "b", ""];
    assert Fields("a,,b,") == ["a", "", "b", ""];
    assert ["a", "", "b", ""][..3] == ["a", "", "b"];
  }

  /** String.split(",") keeps a leading empty piece and does not trim blanks: ", a" gives ["", " a"]. */
  lemma SplitKeepsLeadingEmptyAndBlanks()
    ensures Split(", a") == ["", " a"]
  {
    assert Fields("") == [""] && "a"[1..] == "" && ['a'] + "" == "a";
    assert Fields("a") == ["a"];
    assert " a"[1..] == "a" && [' '] + "a" == " a";
    assert Fields(" a") == [" a"];
    assert Fields(", a") == ["", " a"];
  }

  /** A value of commas only splits to no piece at all; the empty value to one empty piece. */
  lemma SplitOfCommasOnly()
    ensures Split(",,") == []
    ensures Split("") == [""]
  {
    assert Fields(",") == ["", ""];
    assert Fields(",,") == ["", "", ""];
    assert DropTrailingEmpty(["", "", ""]) == DropTrailingEmpty(["", ""]);
    assert DropTrailingEmpty(["", ""]) == DropTrailingEmpty([""]);
  }
}
