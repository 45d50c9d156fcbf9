/** The string operations of .NET that the controllers rely on:
    `Split`, `String.Join`, `IndexOf`, `Replace`, `char.IsWhiteSpace`,
    decimal formatting (`ToString`, `D6`, `F2`) and `int.TryParse`. */
module Text {
  import opened Common

  // ---------------------------------------------------------------------
  // Split and Join

  /** `s.Split(seps)`: the pieces between separator characters, empty pieces kept. */
  function Split(s: string, seps: set<char>): (parts: seq<string>)
    ensures |parts| >= 1
    ensures forall i, j :: 0 <= i < |parts| && 0 <= j < |parts[i]| ==> parts[i][j] !in seps
    decreases |s|
  {
    if s == [] then [""]
    else
      var rest := Split(s[1..], seps);
      if s[0] in seps then [""] + rest
      else [[s[0]] + rest[0]] + rest[1..]
  }

  /** `String.Join(sep, parts)`. */
  function Join(sep: string, parts: seq<string>): string
    decreases |parts|
  {
    if |parts| == 0 then ""
    else if |parts| == 1 then parts[0]
    else parts[0] + sep + Join(sep, parts[1..])
  }

  /** Every character of `s` that lies in `seps` replaced by `r`. */
  function MapChars(s: string, seps: set<char>, r: char): (t: string)
    ensures |t| == |s|
    ensures forall i :: 0 <= i < |s| ==> t[i] == (if s[i] in seps then r else s[i])
  {
    seq(|s|, i requires 0 <= i < |s| => if s[i] in seps then r else s[i])
  }

  lemma JoinCons(sep: string, p: string, rest: seq<string>)
    requires |rest| >= 1
    ensures Join(sep, [p] + rest) == p + sep + Join(sep, rest)
  {
    assert ([p] + rest)[1..] == rest;
  }

  /** Joining the pieces of a split with a one-character separator replaces
      every separator character by that character. */
  lemma {:induction false} JoinSplit(s: string, seps: set<char>, r: char)
    ensures Join([r], Split(s, seps)) == MapChars(s, seps, r)
    decreases |s|
  {
    if s != [] {
      JoinSplit(s[1..], seps, r);
      if s[0] in seps {
        JoinSplitAtSep(s, seps, r);
      } else {
        JoinSplitAtChar(s, seps, r);
      }
    }
  }

  /** The step of `JoinSplit` for a leading separator: an empty first piece. */
  lemma JoinSplitAtSep(s: string, seps: set<char>, r: char)
    requires s != [] && s[0] in seps
    requires Join([r], Split(s[1..], seps)) == MapChars(s[1..], seps, r)
    ensures Join([r], Split(s, seps)) == MapChars(s, seps, r)
  {
    var rest := Split(s[1..], seps);
    MapCharsCons(s, seps, r);
    JoinCons([r], "", rest);
    assert "" + [r] + MapChars(s[1..], seps, r) == [r] + MapChars(s[1..], seps, r);
  }

  /** The step of `JoinSplit` for a leading ordinary character: it starts the first piece. */
  lemma JoinSplitAtChar(s: string, seps: set<char>, r: char)
    requires s != [] && s[0] !in seps
    requires Join([r], Split(s[1..], seps)) == MapChars(s[1..], seps, r)
    ensures Join([r], Split(s, seps)) == MapChars(s, seps, r)
  {
    var rest := Split(s[1..], seps);
    assert Split(s, seps) == [[s[0]] + rest[0]] + rest[1..];
    JoinGlue([r], s[0], rest);
    MapCharsCons(s, seps, r);
  }

  /** A character put in front of the first part comes out in front of the join. */
  lemma JoinGlue(sep: string, c: char, parts: seq<string>)
    requires |parts| >= 1
    ensures Join(sep, [[c] + parts[0]] + parts[1..]) == [c] + Join(sep, parts)
  {
    if |parts| > 1 {
      var tail := Join(sep, parts[1..]);
      assert parts == [parts[0]] + parts[1..];
      JoinCons(sep, parts[0], parts[1..]);
      JoinCons(sep, [c] + parts[0], parts[1..]);
      assert ([c] + parts[0]) + sep + tail == [c] + (parts[0] + sep + tail);
    }
  }

  lemma MapCharsCons(s: string, seps: set<char>, r: char)
    requires s != []
    ensures MapChars(s, seps, r) == [if s[0] in seps then r else s[0]] + MapChars(s[1..], seps, r)
  {
  }

  /** Splitting a string at a character it cannot contain gives the string back. */
  lemma JoinSplitIdentity(s: string, c: char)
    ensures Join([c], Split(s, {c})) == s
  {
    JoinSplit(s, {c}, c);
    assert MapChars(s, {c}, c) == s;
  }

  predicate NoneIn(s: string, seps: set<char>)
  {
    forall i :: 0 <= i < |s| ==> s[i] !in seps
  }

  /** A separator-free prefix sticks to the first piece of what follows. */
  lemma {:induction false} SplitPrefix(a: string, t: string, seps: set<char>)
    requires NoneIn(a, seps)
    ensures Split(a + t, seps) == [a + Split(t, seps)[0]] + Split(t, seps)[1..]
    decreases |a|
  {
    if a != [] {
      assert (a + t)[1..] == a[1..] + t;
      assert (a + t)[0] == a[0];
      SplitPrefix(a[1..], t, seps);
      var r := Split(a[1..] + t, seps);
      assert a[0] !in seps;
      assert Split(a + t, seps) == [[a[0]] + r[0]] + r[1..];
      assert r[1..] == Split(t, seps)[1..];
      assert [a[0]] + (a[1..] + Split(t, seps)[0]) == a + Split(t, seps)[0];
    } else {
      var r := Split(t, seps);
      assert a + t == t;
      assert a + r[0] == r[0];
      assert r == [r[0]] + r[1..];
    }
  }

  /** A string without separators is a single piece. */
  lemma SplitNone(a: string, seps: set<char>)
    requires NoneIn(a, seps)
    ensures Split(a, seps) == [a]
  {
    SplitPrefix(a, "", seps);
    assert a + "" == a;
  }

  /** A separator ends the first piece. */
  lemma SplitAt(a: string, x: char, t: string, seps: set<char>)
    requires NoneIn(a, seps) && x in seps
    ensures Split(a + [x] + t, seps) == [a] + Split(t, seps)
  {
    assert a + [x] + t == a + ([x] + t);
    SplitPrefix(a, [x] + t, seps);
    assert ([x] + t)[1..] == t;
    assert Split([x] + t, seps) == [""] + Split(t, seps);
    assert a + "" == a;
  }

  /** `a-b--d` with separator-free parts splits into four parts, the third empty. */
  lemma SplitFourEmpty(a: string, b: string, d: string, x: char)
    requires NoneIn(a, {x}) && NoneIn(b, {x}) && NoneIn(d, {x})
    ensures Split(a + [x] + b + [x] + [x] + d, {x}) == [a, b, "", d]
  {
    assert a + [x] + b + [x] + [x] + d == a + [x] + (b + [x] + ("" + [x] + d));
    SplitAt(a, x, b + [x] + ("" + [x] + d), {x});
    SplitAt(b, x, "" + [x] + d, {x});
    SplitAt("", x, d, {x});
    SplitNone(d, {x});
  }

  /** `a-b-c` with separator-free parts splits into exactly those three parts. */
  lemma SplitThree(a: string, b: string, c: string, x: char)
    requires NoneIn(a, {x}) && NoneIn(b, {x}) && NoneIn(c, {x})
    ensures Split(a + [x] + b + [x] + c, {x}) == [a, b, c]
  {
    assert a + [x] + b + [x] + c == a + [x] + (b + [x] + c);
    SplitAt(a, x, b + [x] + c, {x});
    SplitAt(b, x, c, {x});
    SplitNone(c, {x});
  }

  /** Splitting a join at its one-character separator gives the parts back
      when none of them holds that character. */
  lemma {:induction false} SplitJoin(parts: seq<string>, c: char)
    requires |parts| >= 1
    requires forall i :: 0 <= i < |parts| ==> NoneIn(parts[i], {c})
    ensures Split(Join([c], parts), {c}) == parts
    decreases |parts|
  {
    if |parts| == 1 {
      SplitNone(parts[0], {c});
    } else {
      assert parts == [parts[0]] + parts[1..];
      JoinCons([c], parts[0], parts[1..]);
      SplitJoin(parts[1..], c);
      SplitAt(parts[0], c, Join([c], parts[1..]), {c});
    }
  }

  /** A join holds no character that neither the parts nor the separator hold. */
  lemma {:induction false} JoinNoneIn(sep: string, parts: seq<string>, cs: set<char>)
    requires NoneIn(sep, cs)
    requires forall i :: 0 <= i < |parts| ==> NoneIn(parts[i], cs)
    ensures NoneIn(Join(sep, parts), cs)
    decreases |parts|
  {
    if |parts| > 1 {
      JoinNoneIn(sep, parts[1..], cs);
      var t := Join(sep, parts[1..]);
      assert Join(sep, parts) == parts[0] + sep + t;
      assert NoneIn(parts[0] + sep + t, cs) by {
        forall i | 0 <= i < |parts[0] + sep + t| ensures (parts[0] + sep + t)[i] !in cs {
          if i >= |parts[0]| + |sep| { assert (parts[0] + sep + t)[i] == t[i - |parts[0]| - |sep|]; }
        }
      }
    }
  }

  // ---------------------------------------------------------------------
  // Searching and replacing

  /** `s.IndexOf(c)`: the first position of `c`, if any. */
  function IndexOf(s: string, c: char): (r: Option<nat>)
    ensures r.Some? ==> r.value < |s| && s[r.value] == c && NoneIn(s[..r.value], {c})
    ensures r.None? ==> NoneIn(s, {c})
  {
    if s == [] then None
    else if s[0] == c then Some(0)
    else match IndexOf(s[1..], c)
      case None => None
      case Some(k) => assert s[..k + 1] == [s[0]] + s[1..][..k]; Some(k + 1)
  }

  /** `s.Replace(from, to)` for one-character strings. */
  function ReplaceChar(s: string, from: char, to: char): (t: string)
    ensures |t| == |s|
    ensures forall i :: 0 <= i < |s| ==> t[i] == (if s[i] == from then to else s[i])
  {
    MapChars(s, {from}, to)
  }

  /** `char.IsWhiteSpace`: the Unicode space separators, line and paragraph
      separators, and the control characters U+0009 to U+000D and U+0085. */
  predicate IsWhiteSpace(c: char)
  {
    ('\U{0009}' <= c <= '\U{000D}') || c == ' ' || c == '\U{0085}' || c == '\U{00A0}'
    || c == '\U{1680}' || ('\U{2000}' <= c <= '\U{200A}') || c == '\U{2028}' || c == '\U{2029}'
    || c == '\U{202F}' || c == '\U{205F}' || c == '\U{3000}'
  }

  /** `string.IsNullOrWhiteSpace`. */
  predicate IsNullOrWhiteSpace(s: Option<string>)
  {
    s.None? || forall i :: 0 <= i < |s.value| ==> IsWhiteSpace(s.value[i])
  }

  // ---------------------------------------------------------------------
  // Decimal digits

  predicate IsDigit(c: char) { '0' <= c <= '9' }

  predicate AllDigits(s: string) { forall i :: 0 <= i < |s| ==> IsDigit(s[i]) }

  function DigitChar(d: nat): (c: char)
    requires d < 10
    ensures IsDigit(c) && c as int - '0' as int == d
  {
    ('0' as int + d) as char
  }

  /** The value of a string of decimal digits (leading zeros allowed). */
  function DigitsValue(s: string): (n: nat)
    requires AllDigits(s)
  {
    if s == [] then 0
    else DigitsValue(s[..|s| - 1]) * 10 + (s[|s| - 1] as int - '0' as int)
  }

  /** `n.ToString()` for a non-negative number. */
  function NatText(n: nat): (s: string)
    ensures |s| >= 1 && AllDigits(s)
  {
    if n < 10 then [DigitChar(n)] else NatText(n / 10) + [DigitChar(n % 10)]
  }

  /** Printing then reading back a number gives the number. */
  lemma {:induction false} NatTextValue(n: nat)
    ensures DigitsValue(NatText(n)) == n
  {
    if n >= 10 {
      var s := NatText(n);
      assert s[..|s| - 1] == NatText(n / 10);
      NatTextValue(n / 10);
    }
  }

  /** `c` repeated `k` times. */
  function Repeat(c: char, k: nat): (s: string)
    ensures |s| == k && forall i :: 0 <= i < k ==> s[i] == c
  {
    seq(k, _ => c)
  }

  /** Leading zeros do not change the value of a digit string. */
  lemma {:induction false} LeadingZeros(k: nat, s: string)
    requires AllDigits(s)
    ensures AllDigits(Repeat('0', k) + s)
    ensures DigitsValue(Repeat('0', k) + s) == DigitsValue(s)
    decreases |s|, k
  {
    var z := Repeat('0', k);
    if s == [] {
      assert z + s == z;
      if k > 0 {
        assert z[..k - 1] == Repeat('0', k - 1) + [];
        LeadingZeros(k - 1, []);
      }
    } else {
      var init := s[..|s| - 1];
      assert (z + s)[..|z + s| - 1] == z + init;
      LeadingZeros(k, init);
    }
  }

  /** `s.PadLeft(width, c)`. */
  function PadLeft(s: string, width: nat, c: char): (t: string)
    ensures |t| == if |s| < width then width else |s|
  {
    if |s| < width then Repeat(c, width - |s|) + s else s
  }

  /** The decimal text of a possibly negative number, zero-padded to at least
      `width` digits: the `D<width>` format. */
  function DecimalPadded(x: int, width: nat): (s: string)
    ensures x >= 0 ==> AllDigits(s) && |s| >= width && DigitsValue(s) == x
    ensures x < 0 ==> |s| >= 1 && s[0] == '-'
  {
    var digits := PadLeft(NatText(if x < 0 then -x else x), width, '0');
    if x >= 0 then
      NatTextValue(x);
      var k := if |NatText(x)| < width then width - |NatText(x)| else 0;
      LeadingZeros(k, NatText(x));
      assert digits == Repeat('0', k) + NatText(x);
      digits
    else "-" + digits
  }

  const IntMax: int := 2147483647
  const IntMin: int := -2147483648

  /** `int.TryParse` restricted to plain digit strings: the value when it fits
      in 32 bits. */
  function TryParseInt(s: string): (r: Option<int>)
    ensures r.Some? <==> |s| >= 1 && AllDigits(s) && DigitsValue(s) <= IntMax
    ensures r.Some? ==> r.value == DigitsValue(s)
  {
    if |s| >= 1 && AllDigits(s) && DigitsValue(s) <= IntMax then Some(DigitsValue(s)) else None
  }

  /** Reading back what is printed: any number of leading zeros followed by
      the decimal text of a number that fits in 32 bits parses to that number,
      and the text of a larger number does not parse. */
  lemma TryParseIntRoundTrip(k: nat, n: nat)
    ensures n <= IntMax ==> TryParseInt(Repeat('0', k) + NatText(n)) == Some(n)
    ensures n > IntMax ==> TryParseInt(Repeat('0', k) + NatText(n)) == None
  {
    NatTextValue(n);
    LeadingZeros(k, NatText(n));
  }

  /** Unchecked 32-bit `x + 1`: two's-complement addition, the exact sum
      reduced modulo 2^32 into the range of `int`. */
  function Increment32(x: int): (y: int)
    requires IntMin <= x <= IntMax
    ensures IntMin <= y <= IntMax
    ensures y == (x - IntMin + 1) % 0x1_0000_0000 + IntMin
  {
    if x == IntMax then IntMin else x + 1
  }

  /** `value.ToString("F2", culture)` for an amount held in cents, where
      `separator` is the culture's decimal separator. */
  function MoneyTextWith(cents: Money, separator: string): (s: string)
    ensures |s| >= 3 + |separator|
  {
    var a := if cents < 0 then -cents else cents;
    var body := NatText(a / 100) + separator + [DigitChar(a % 100 / 10), DigitChar(a % 10)];
    if cents < 0 then "-" + body else body
  }

  /** The F2 text of an amount: for a non-negative one, the whole units in
      decimal digits, then the separator, then exactly two digits holding
      the cents; a negative amount prints as '-' followed by the text of its
      absolute value. */
  lemma MoneyTextParts(cents: Money, separator: string)
    ensures cents >= 0 ==>
      var s := MoneyTextWith(cents, separator);
      var n := |s| - |separator| - 2;
      && 1 <= n && AllDigits(s[..n]) && DigitsValue(s[..n]) == cents / 100
      && s[n..n + |separator|] == separator
      && |s[n + |separator|..]| == 2 && AllDigits(s[n + |separator|..])
      && DigitsValue(s[n + |separator|..]) == cents % 100
    ensures cents < 0 ==> MoneyTextWith(cents, separator) == "-" + MoneyTextWith(-cents, separator)
  {
    if cents >= 0 {
      var whole := NatText(cents / 100);
      var frac := [DigitChar(cents % 100 / 10), DigitChar(cents % 10)];
      ThreeParts(whole, separator, frac);
      NatTextValue(cents / 100);
      TwoDigitsValue(cents % 100 / 10, cents % 10);
    }
  }

  /** The three pieces of a concatenation come back by slicing. */
  lemma ThreeParts(x: string, y: string, z: string)
    ensures var s := x + y + z;
      s[..|x|] == x && s[|x|..|x| + |y|] == y && s[|x| + |y|..] == z
  {
  }

  /** Two digits read back as a number below 100. */
  lemma TwoDigitsValue(a: nat, b: nat)
    requires a < 10 && b < 10
    ensures AllDigits([DigitChar(a), DigitChar(b)])
    ensures DigitsValue([DigitChar(a), DigitChar(b)]) == a * 10 + b
  {
    var t := [DigitChar(a), DigitChar(b)];
    var h := [DigitChar(a)];
    assert t[..1] == h && h[..0] == [];
    assert DigitsValue(h) == a;
    assert DigitsValue(t) == DigitsValue(h) * 10 + b;
  }

  /** `value.ToString("F2")` in the invariant culture. */
  function MoneyText(cents: Money): (s: string)
    ensures |s| >= 4
  {
    MoneyTextWith(cents, ".")
  }
}
