/**
 * Shared vocabulary of the model: an Option type for nullable columns and
 * optional request fields, Python's `str.split` / `str.join` on one-character
 * separators, decimal rendering of integers (f-strings and `%02d`), the
 * code-point order on strings used by `order_by` on text columns, and the
 * sort that `list.sort` / `order_by` perform.
 */
module Common {

  /** A nullable column or a request field that may be absent. */
  datatype Option<T> = None | Some(value: T) {
    /** The value, or `default` when absent (`dict.get(key, default)`). */
    function GetOr(default: T): T {
      if Some? then value else default
    }
  }

  // ---------------------------------------------------------------------------
  // Splitting and joining
  // ---------------------------------------------------------------------------

  /** Python's `s.split(c)` for a one-character separator `c`. */
  function Split(s: string, c: char): (r: seq<string>)
    ensures |r| >= 1
    ensures forall i :: 0 <= i < |r| ==> c !in r[i]
    decreases |s|
  {
    if |s| == 0 then [""]
    else
      var rest := Split(s[1..], c);
      if s[0] == c then [""] + rest
      else [[s[0]] + rest[0]] + rest[1..]
  }

  /** Python's `sep.join(parts)`. */
  function Join(parts: seq<string>, sep: string): (r: string)
    decreases |parts|
  {
    if |parts| == 0 then ""
    else if |parts| == 1 then parts[0]
    else parts[0] + sep + Join(parts[1..], sep)
  }

  /** Joining the pieces of a split with the same separator gives back the string. */
  lemma {:induction false} JoinSplit(s: string, c: char)
    ensures Join(Split(s, c), [c]) == s
    decreases |s|
  {
    if |s| > 0 {
      var rest := Split(s[1..], c);
      JoinSplit(s[1..], c);
      assert Join(rest, [c]) == s[1..];
      if s[0] == c {
        assert Join([""] + rest, [c]) == "" + [c] + Join(rest, [c]);
      } else if |rest| == 1 {
        assert Split(s, c) == [[s[0]] + rest[0]];
      } else {
        var parts := [[s[0]] + rest[0]] + rest[1..];
        assert parts[1..] == rest[1..];
        assert Join(rest, [c]) == rest[0] + [c] + Join(rest[1..], [c]);
        assert Join(parts, [c]) == [s[0]] + rest[0] + [c] + Join(rest[1..], [c]);
      }
    }
  }

  /** Splitting a string that holds no separator yields that string alone. */
  lemma {:induction false} SplitNoSeparator(a: string, c: char)
    requires c !in a
    ensures Split(a, c) == [a]
    decreases |a|
  {
    if |a| > 0 {
      SplitNoSeparator(a[1..], c);
      assert [a[0]] + a[1..] == a;
    }
  }

  /** A separator after a separator-free prefix cuts exactly there. */
  lemma {:induction false} SplitAtSeparator(a: string, b: string, c: char)
    requires c !in a
    ensures Split(a + [c] + b, c) == [a] + Split(b, c)
    decreases |a|
  {
    if |a| == 0 {
      assert a + [c] + b == [c] + b;
      assert ([c] + b)[1..] == b;
    } else {
      SplitAtSeparator(a[1..], b, c);
      var s := a + [c] + b;
      assert s[0] == a[0] && s[1..] == a[1..] + [c] + b;
      assert [a[0]] + a[1..] == a;
    }
  }

  /** Splitting a join of separator-free pieces gives back the pieces. */
  lemma {:induction false} SplitJoin(parts: seq<string>, c: char)
    requires |parts| >= 1
    requires forall i :: 0 <= i < |parts| ==> c !in parts[i]
    ensures Split(Join(parts, [c]), c) == parts
    decreases |parts|
  {
    if |parts| == 1 {
      SplitNoSeparator(parts[0], c);
    } else {
      SplitJoin(parts[1..], c);
      SplitAtSeparator(parts[0], Join(parts[1..], [c]), c);
      assert [parts[0]] + parts[1..] == parts;
    }
  }

  /** `needle in hay` for strings: some suffix of `hay` starts with `needle`. */
  predicate Contains(hay: string, needle: string)
    decreases |hay|
  {
    needle <= hay || (|hay| > 0 && Contains(hay[1..], needle))
  }

  /** `needle` occurs in `hay` starting at position `i`. */
  predicate OccursAt(hay: string, needle: string, i: int) {
    0 <= i && i + |needle| <= |hay| && hay[i..i + |needle|] == needle
  }

  /** The recursive substring test agrees with "occurs at some position". */
  lemma {:induction false} ContainsAt(hay: string, needle: string)
    ensures Contains(hay, needle) <==> exists i :: OccursAt(hay, needle, i)
    decreases |hay|
  {
    if needle <= hay {
      assert OccursAt(hay, needle, 0);
    } else if |hay| > 0 {
      ContainsAt(hay[1..], needle);
      if Contains(hay, needle) {
        var i :| OccursAt(hay[1..], needle, i);
        assert OccursAt(hay, needle, i + 1);
      }
      if i :| OccursAt(hay, needle, i) {
        assert i != 0;
        assert OccursAt(hay[1..], needle, i - 1);
      }
    }
  }

  /** The first piece of a split is a prefix of the string. */
  lemma {:induction false} SplitFirstIsPrefix(s: string, c: char)
    ensures Split(s, c)[0] <= s
    decreases |s|
  {
    if |s| > 0 && s[0] != c {
      SplitFirstIsPrefix(s[1..], c);
    }
  }

  /** Every piece of a split occurs in the string it came from. */
  lemma {:induction false} SplitPartOccurs(s: string, c: char, k: nat)
    requires k < |Split(s, c)|
    ensures exists i :: OccursAt(s, Split(s, c)[k], i)
    decreases |s|
  {
    if |s| == 0 {
      assert OccursAt(s, Split(s, c)[k], 0);
    } else {
      var rest := Split(s[1..], c);
      if s[0] == c {
        if k == 0 {
          assert OccursAt(s, Split(s, c)[k], 0);
        } else {
          SplitPartOccurs(s[1..], c, k - 1);
          var i :| OccursAt(s[1..], rest[k - 1], i);
          assert OccursAt(s, Split(s, c)[k], i + 1);
        }
      } else if k == 0 {
        SplitFirstIsPrefix(s[1..], c);
        assert Split(s, c)[0] == [s[0]] + rest[0];
        assert OccursAt(s, Split(s, c)[k], 0);
      } else {
        SplitPartOccurs(s[1..], c, k);
        var i :| OccursAt(s[1..], rest[k], i);
        assert OccursAt(s, Split(s, c)[k], i + 1);
      }
    }
  }

  /** A piece of `s.split(c)` is a substring of `s`: `x in s.split(c)` implies `x in s`. */
  lemma SplitMemberIsSubstring(s: string, c: char, x: string)
    requires x in Split(s, c)
    ensures Contains(s, x)
  {
    var k :| 0 <= k < |Split(s, c)| && Split(s, c)[k] == x;
    SplitPartOccurs(s, c, k);
    ContainsAt(s, x);
  }

  // ---------------------------------------------------------------------------
  // Python's str.strip()
  // ---------------------------------------------------------------------------

  /** The characters Python's `str.isspace()` accepts, which `str.strip()` removes. */
  predicate IsSpace(c: char) {
    c == ' ' || c == '\t' || c == '\n' || c == '\r' || c == '\U{000B}' || c == '\U{000C}' ||
    ('\U{001C}' <= c <= '\U{001F}') || c == '\U{0085}' || c == '\U{00A0}' || c == '\U{1680}' ||
    ('\U{2000}' <= c <= '\U{200A}') || c == '\U{2028}' || c == '\U{2029}' || c == '\U{202F}' ||
    c == '\U{205F}' || c == '\U{3000}'
  }

  /** `s.lstrip()`: the suffix of `s` left after dropping leading white space. */
  function StripStart(s: string): (r: string)
    ensures |r| <= |s| && r == s[|s| - |r|..]
    ensures |r| > 0 ==> !IsSpace(r[0])
    ensures forall i :: 0 <= i < |s| - |r| ==> IsSpace(s[i])
    decreases |s|
  {
    if |s| > 0 && IsSpace(s[0]) then StripStart(s[1..]) else s
  }

  /** `s.rstrip()`: the prefix of `s` left after dropping trailing white space. */
  function StripEnd(s: string): (r: string)
    ensures |r| <= |s| && r == s[..|r|]
    ensures |r| > 0 ==> !IsSpace(r[|r| - 1])
    ensures forall i :: |r| <= i < |s| ==> IsSpace(s[i])
    decreases |s|
  {
    if |s| > 0 && IsSpace(s[|s| - 1]) then StripEnd(s[..|s| - 1]) else s
  }

  /** `s.strip()`. */
  function Strip(s: string): string {
    StripEnd(StripStart(s))
  }

  /**
   * What `strip()` returns: a piece of `s` that neither starts nor ends with
   * white space, with only white space cut off around it; it is empty exactly
   * when `s` is all white space, and stripping again changes nothing.
   */
  lemma {:induction false} StripProperties(s: string)
    ensures var r := Strip(s);
            && |r| <= |s|
            && (exists i :: OccursAt(s, r, i) &&
                            (forall j :: 0 <= j < i ==> IsSpace(s[j])) &&
                            (forall j :: i + |r| <= j < |s| ==> IsSpace(s[j])))
            && (|r| > 0 ==> !IsSpace(r[0]) && !IsSpace(r[|r| - 1]))
            && (r == "" <==> forall j :: 0 <= j < |s| ==> IsSpace(s[j]))
            && Strip(r) == r
  {
    var t := StripStart(s);
    var r := StripEnd(t);
    var i := |s| - |t|;
    assert OccursAt(s, r, i) by {
      assert t == s[i..];
      assert r == t[..|r|];
    }
    forall j | i + |r| <= j < |s| ensures IsSpace(s[j]) {
      assert s[j] == t[j - i];
    }
    if |r| > 0 {
      assert r[0] == t[0];
    }
  }

  // ---------------------------------------------------------------------------
  // Decimal rendering (f"{n}", f"{n:02d}") and its inverse
  // ---------------------------------------------------------------------------

  predicate IsDigit(ch: char) {
    '0' <= ch <= '9'
  }

  predicate AllDigits(s: string) {
    forall i :: 0 <= i < |s| ==> IsDigit(s[i])
  }

  function DigitChar(d: nat): (ch: char)
    requires d < 10
    ensures IsDigit(ch)
  {
    ('0' as int + d) as char
  }

  /** Decimal digits of a natural number, without leading zeros. */
  function NatToDecimal(n: nat): (r: string)
    ensures |r| >= 1 && AllDigits(r)
    ensures n < 10 ==> |r| == 1
    ensures 10 <= n < 100 ==> |r| == 2
    decreases n
  {
    if n < 10 then [DigitChar(n)] else NatToDecimal(n / 10) + [DigitChar(n % 10)]
  }

  /** Python's `str(i)` for an integer. */
  function IntToDecimal(i: int): (r: string)
    ensures |r| >= 1
    ensures '/' !in r && '_' !in r && ':' !in r
  {
    if i < 0 then "-" + NatToDecimal(-i) else NatToDecimal(i)
  }

  /** Value of a string of decimal digits. */
  function DecimalValue(s: string): nat
    requires AllDigits(s)
    decreases |s|
  {
    if |s| == 0 then 0
    else DecimalValue(s[..|s| - 1]) * 10 + (s[|s| - 1] as int - '0' as int)
  }

  /** Python's `int(s)` restricted to an optional minus sign and decimal digits. */
  function ParseInt(s: string): Option<int> {
    if |s| >= 2 && s[0] == '-' && AllDigits(s[1..]) then Some(0 - DecimalValue(s[1..]))
    else if |s| >= 1 && AllDigits(s) then Some(DecimalValue(s))
    else None
  }

  /**
   * Digits with single underscores between them, as `int()` accepts after
   * the sign: no underscore first, last or next to another underscore.
   */
  predicate Grouped(s: string): (b: bool)
    ensures b ==> |s| >= 1 && forall i :: 0 <= i < |s| ==> IsDigit(s[i]) || s[i] == '_'
    decreases |s|
  {
    |s| >= 1 && IsDigit(s[|s| - 1]) &&
    (|s| == 1 || Grouped(s[..|s| - 1]) || (|s| >= 3 && s[|s| - 2] == '_' && Grouped(s[..|s| - 2])))
  }

  /** `s` with its underscores removed. */
  function Ungrouped(s: string): (r: string)
    ensures (forall i :: 0 <= i < |s| ==> IsDigit(s[i]) || s[i] == '_') ==> AllDigits(r)
    ensures AllDigits(s) ==> r == s
    decreases |s|
  {
    if |s| == 0 then ""
    else if s[|s| - 1] == '_' then Ungrouped(s[..|s| - 1])
    else Ungrouped(s[..|s| - 1]) + [s[|s| - 1]]
  }

  /** The number `int()` reads from already stripped text: an optional sign, then digit groups. */
  function SignedValue(t: string): Option<int> {
    if |t| >= 2 && (t[0] == '+' || t[0] == '-') && Grouped(t[1..]) then
      var v := DecimalValue(Ungrouped(t[1..]));
      Some(if t[0] == '-' then 0 - v else v)
    else if Grouped(t) then Some(DecimalValue(Ungrouped(t)))
    else None
  }

  /**
   * Python's `int(s)` on a string, base 10: white space around the number is
   * ignored, a '+' or '-' sign may lead, and single underscores may separate
   * digits.
   */
  function PyInt(s: string): Option<int> {
    SignedValue(Strip(s))
  }

  lemma {:induction false} DigitsAreGrouped(s: string)
    requires |s| >= 1 && AllDigits(s)
    ensures Grouped(s)
    decreases |s|
  {
    if |s| > 1 {
      DigitsAreGrouped(s[..|s| - 1]);
    }
  }

  /** Text that neither starts nor ends with white space is its own `strip()`. */
  lemma StripUnpadded(s: string)
    requires |s| >= 1 && !IsSpace(s[0]) && !IsSpace(s[|s| - 1])
    ensures Strip(s) == s
  {
    assert StripStart(s) == s;
  }

  /** A string `ParseInt` reads is read the same way by `int()`. */
  lemma PyIntExtendsParseInt(s: string)
    requires ParseInt(s).Some?
    ensures PyInt(s) == ParseInt(s)
  {
    if |s| >= 2 && s[0] == '-' && AllDigits(s[1..]) {
      assert IsDigit(s[1..][|s| - 2]);
      StripUnpadded(s);
      DigitsAreGrouped(s[1..]);
    } else {
      assert AllDigits(s);
      assert IsDigit(s[0]) && IsDigit(s[|s| - 1]);
      StripUnpadded(s);
      DigitsAreGrouped(s);
      assert SignedValue(s) == Some(DecimalValue(s));
    }
  }

  /** `int()` accepts a '+' in front of the digits. */
  lemma PyIntPlus(d: string)
    requires |d| >= 1 && AllDigits(d)
    ensures PyInt("+" + d) == Some(DecimalValue(d))
  {
    var s := "+" + d;
    assert s[0] == '+' && s[1..] == d;
    assert IsDigit(d[|d| - 1]) && s[|s| - 1] == d[|d| - 1];
    StripUnpadded(s);
    DigitsAreGrouped(d);
  }

  lemma {:induction false} StripStartAppend(s: string, c: char)
    requires IsSpace(c)
    ensures StripEnd(StripStart(s + [c])) == StripEnd(StripStart(s))
    decreases |s|
  {
    if |s| == 0 {
      assert StripStart([c]) == StripStart([c][1..]);
      assert [c][1..] == [];
    } else if IsSpace(s[0]) {
      assert (s + [c])[1..] == s[1..] + [c];
      StripStartAppend(s[1..], c);
    } else {
      assert StripStart(s + [c]) == s + [c];
      assert (s + [c])[..|s|] == s;
    }
  }

  /** `strip()` removes one more blank on either side. */
  lemma StripBlanks(s: string)
    ensures Strip(" " + s) == Strip(s)
    ensures Strip(s + " ") == Strip(s)
  {
    assert (" " + s)[1..] == s;
    assert StripStart(" " + s) == StripStart(s);
    StripStartAppend(s, ' ');
  }

  /** `int()` ignores a blank on either side of the text. */
  lemma PyIntIgnoresBlanks(s: string)
    ensures PyInt(" " + s) == PyInt(s)
    ensures PyInt(s + " ") == PyInt(s)
  {
    StripBlanks(s);
  }

  lemma {:induction false} UngroupedAppend(x: string, y: string)
    ensures Ungrouped(x + y) == Ungrouped(x) + Ungrouped(y)
    decreases |y|
  {
    if |y| == 0 {
      assert x + y == x;
    } else {
      assert (x + y)[..|x + y| - 1] == x + y[..|y| - 1];
      UngroupedAppend(x, y[..|y| - 1]);
    }
  }

  lemma {:induction false} GroupedJoin(a: string, b: string)
    requires |a| >= 1 && AllDigits(a) && |b| >= 1 && AllDigits(b)
    ensures Grouped(a + "_" + b)
    decreases |b|
  {
    var s := a + "_" + b;
    assert IsDigit(b[|b| - 1]) && s[|s| - 1] == b[|b| - 1];
    if |b| == 1 {
      assert s[..|s| - 2] == a;
      DigitsAreGrouped(a);
    } else {
      assert s[..|s| - 1] == a + "_" + b[..|b| - 1];
      GroupedJoin(a, b[..|b| - 1]);
    }
  }

  lemma UngroupedJoin(a: string, b: string)
    requires AllDigits(a) && AllDigits(b)
    ensures Ungrouped(a + "_" + b) == a + b
  {
    UngroupedAppend(a + "_", b);
    UngroupedAppend(a, "_");
    assert Ungrouped("_") == Ungrouped("_"[..0]);
  }

  /** `int()` reads two digit groups joined by one underscore as their digits together. */
  lemma PyIntDigitGroups(a: string, b: string)
    requires |a| >= 1 && AllDigits(a) && |b| >= 1 && AllDigits(b)
    ensures PyInt(a + "_" + b) == Some(DecimalValue(a + b))
  {
    var s := a + "_" + b;
    assert IsDigit(a[0]) && IsDigit(b[|b| - 1]) && s[0] == a[0] && s[|s| - 1] == b[|b| - 1];
    StripUnpadded(s);
    GroupedJoin(a, b);
    UngroupedJoin(a, b);
    assert !(s[0] == '+' || s[0] == '-');
  }

  lemma {:induction false} DecimalRoundTrip(n: nat)
    ensures DecimalValue(NatToDecimal(n)) == n
    decreases n
  {
    if n >= 10 {
      DecimalRoundTrip(n / 10);
      var r := NatToDecimal(n);
      assert r[..|r| - 1] == NatToDecimal(n / 10);
    }
  }

  /** Rendering an integer in decimal and parsing it back gives the integer. */
  lemma IntRoundTrip(i: int)
    ensures ParseInt(IntToDecimal(i)) == Some(i)
  {
    if i < 0 {
      DecimalRoundTrip(-i);
      var r := IntToDecimal(i);
      assert r[1..] == NatToDecimal(-i);
    } else {
      DecimalRoundTrip(i);
    }
  }

  /** Python's `f"{n:02d}"`: at least two digits, zero-padded on the left. */
  function Pad2(n: nat): (r: string)
    ensures |r| >= 2 && AllDigits(r)
    ensures n < 100 ==> |r| == 2
  {
    if n < 10 then "0" + NatToDecimal(n) else NatToDecimal(n)
  }

  /** Two-digit padding loses nothing: the digits still spell the number. */
  lemma Pad2RoundTrip(n: nat)
    ensures DecimalValue(Pad2(n)) == n
  {
    DecimalRoundTrip(n);
    if n < 10 {
      var r := Pad2(n);
      assert r[..|r| - 1] == "0";
      assert DecimalValue("0") == 0 by {
        assert "0"[..0] == "";
      }
    }
  }

  // ---------------------------------------------------------------------------
  // Code-point order on strings (ORDER BY on a text column, Python `<`)
  // ---------------------------------------------------------------------------

  /** `a <= b` in lexicographic code-point order. */
  predicate StrLe(a: string, b: string)
    decreases |a|
  {
    if |a| == 0 then true
    else if |b| == 0 then false
    else if a[0] != b[0] then a[0] < b[0]
    else StrLe(a[1..], b[1..])
  }

  lemma {:induction false} StrLeTotal(a: string, b: string)
    ensures StrLe(a, b) || StrLe(b, a)
    decreases |a|
  {
    if |a| > 0 && |b| > 0 && a[0] == b[0] {
      StrLeTotal(a[1..], b[1..]);
    }
  }

  lemma {:induction false} StrLeTransitive(a: string, b: string, c: string)
    requires StrLe(a, b) && StrLe(b, c)
    ensures StrLe(a, c)
    decreases |a|
  {
    if |a| > 0 && |b| > 0 && |c| > 0 && a[0] == b[0] && b[0] == c[0] {
      StrLeTransitive(a[1..], b[1..], c[1..]);
    }
  }

  // ---------------------------------------------------------------------------
  // Sorting (`list.sort(key=...)`, `order_by(...)`)
  // ---------------------------------------------------------------------------

  ghost predicate TotalPreorder<T(!new)>(le: (T, T) -> bool) {
    && (forall a, b :: le(a, b) || le(b, a))
    && (forall a, b, c :: le(a, b) && le(b, c) ==> le(a, c))
  }

  predicate SortedBy<T>(s: seq<T>, le: (T, T) -> bool) {
    forall i, j :: 0 <= i < j < |s| ==> le(s[i], s[j])
  }

  /** Inserts `x` before the first element it does not exceed. */
  function InsertBy<T>(x: T, s: seq<T>, le: (T, T) -> bool): (r: seq<T>)
    ensures |r| == |s| + 1
    ensures multiset(r) == multiset(s) + multiset{x}
    decreases |s|
  {
    if |s| == 0 then [x]
    else if le(x, s[0]) then [x] + s
    else
      assert s == [s[0]] + s[1..];
      [s[0]] + InsertBy(x, s[1..], le)
  }

  /** Insertion sort; it keeps elements that compare equal in their original order. */
  function SortBy<T>(s: seq<T>, le: (T, T) -> bool): (r: seq<T>)
    ensures |r| == |s|
    ensures multiset(r) == multiset(s)
    decreases |s|
  {
    if |s| == 0 then []
    else
      assert s == [s[0]] + s[1..];
      InsertBy(s[0], SortBy(s[1..], le), le)
  }

  lemma {:induction false} InsertBySorted<T(!new)>(x: T, s: seq<T>, le: (T, T) -> bool)
    requires TotalPreorder(le)
    requires SortedBy(s, le)
    ensures SortedBy(InsertBy(x, s, le), le)
    decreases |s|
  {
    if |s| > 0 && !le(x, s[0]) {
      assert le(s[0], x);
      InsertBySorted(x, s[1..], le);
      var t := InsertBy(x, s[1..], le);
      assert forall k :: 0 <= k < |t| ==> t[k] in multiset(s[1..]) + multiset{x};
      forall k | 0 <= k < |t|
        ensures le(s[0], t[k])
      {
        assert t[k] in multiset(s[1..]) + multiset{x};
        if t[k] != x {
          assert t[k] in multiset(s[1..]);
          var j :| 0 <= j < |s[1..]| && s[1..][j] == t[k];
          assert s[j + 1] == t[k];
        }
      }
    }
  }

  /** `SortBy` returns its input in non-decreasing order. */
  lemma {:induction false} SortBySorted<T(!new)>(s: seq<T>, le: (T, T) -> bool)
    requires TotalPreorder(le)
    ensures SortedBy(SortBy(s, le), le)
    decreases |s|
  {
    if |s| > 0 {
      SortBySorted(s[1..], le);
      InsertBySorted(s[0], SortBy(s[1..], le), le);
    }
  }

  /** Enumerates a finite set once per element, in an unspecified order. */
  method SetToSeq<T>(s: set<T>) returns (r: seq<T>)
    ensures multiset(r) == multiset(s)
  {
    r := [];
    var rest := s;
    while rest != {}
      invariant rest <= s
      invariant multiset(r) + multiset(rest) == multiset(s)
      decreases |rest|
    {
      var x :| x in rest;
      assert multiset(rest) == multiset(rest - {x}) + multiset{x};
      r := r + [x];
      rest := rest - {x};
    }
  }

  /** Lists `s` in an order that `le` sorts. */
  method OrderedBy<T(!new)>(s: set<T>, le: (T, T) -> bool) returns (r: seq<T>)
    requires TotalPreorder(le)
    ensures multiset(r) == multiset(s)
    ensures SortedBy(r, le)
  {
    var unordered := SetToSeq(s);
    r := SortBy(unordered, le);
    SortBySorted(unordered, le);
  }

  predicate NoDuplicates<T(==)>(s: seq<T>) {
    forall i, j :: 0 <= i < j < |s| ==> s[i] != s[j]
  }

  /** A list without repeats holds each element of its set exactly once. */
  lemma {:induction false} DistinctSeqMultiset<T>(s: seq<T>, elems: set<T>)
    requires NoDuplicates(s)
    requires forall x :: x in s <==> x in elems
    ensures multiset(s) == multiset(elems)
    decreases |s|
  {
    if |s| == 0 {
      assert elems == {};
    } else {
      var front, last := s[..|s| - 1], s[|s| - 1];
      assert s == front + [last];
      assert last !in front;
      forall x ensures x in front <==> x in elems - {last} {
        if x in front {
          var i :| 0 <= i < |front| && front[i] == x;
          assert s[i] == x;
        }
      }
      DistinctSeqMultiset(front, elems - {last});
      assert elems == (elems - {last}) + {last};
    }
  }

  /** An element found at two positions is counted at least twice. */
  lemma RepeatCountsTwice<T>(r: seq<T>, i: nat, j: nat)
    requires i < j < |r|
    ensures r[i] == r[j] ==> multiset(r)[r[i]] >= 2
  {
    assert r == r[..j] + r[j..];
    assert r[i] in r[..j] && r[j] in r[j..];
  }

  /** A list holding a set's elements once each: no repeats, and the same members. */
  lemma {:induction false} SetSeqFacts<T>(r: seq<T>, s: set<T>)
    requires multiset(r) == multiset(s)
    ensures NoDuplicates(r)
    ensures forall x :: x in r <==> x in s
  {
    forall x ensures x in r <==> x in s {
      assert x in r <==> x in multiset(r);
    }
    forall i, j | 0 <= i < j < |r| ensures r[i] != r[j] {
      RepeatCountsTwice(r, i, j);
    }
  }
}
