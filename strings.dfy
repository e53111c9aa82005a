/** The pieces of the ECMAScript string and number library that the screens rely on,
    over `string` (a sequence of Unicode scalar values). Case mapping covers ASCII letters only. */
module Strings {

  // ---------------------------------------------------------------------------
  // Whitespace: `\s` in a regular expression, and `trim()`
  // ---------------------------------------------------------------------------

  /** A character matched by `\s` and removed by `trim()`: the WhiteSpace and
      LineTerminator characters of ECMAScript. */
  predicate IsSpace(c: char) {
    c in SpaceChars || '\U{2000}' <= c <= '\U{200A}'
  }

  const SpaceChars: set<char> := {
    '\t', '\n', '\U{000B}', '\U{000C}', '\r', ' ', '\U{00A0}', '\U{1680}',
    '\U{2028}', '\U{2029}', '\U{202F}', '\U{205F}', '\U{3000}', '\U{FEFF}'
  }

  predicate NoSpaces(s: string) {
    forall i :: 0 <= i < |s| ==> !IsSpace(s[i])
  }

  predicate AllSpaces(s: string) {
    forall i :: 0 <= i < |s| ==> IsSpace(s[i])
  }

  /** `s.replace(/\s+/g, '')`: every whitespace character removed, every other one kept. */
  function StripSpaces(s: string): (r: string)
    ensures |r| <= |s|
    ensures NoSpaces(r)
    ensures r == [] <==> AllSpaces(s)
    ensures forall c :: !IsSpace(c) ==> multiset(r)[c] == multiset(s)[c]
  {
    if s == [] then []
    else
      var rest := StripSpaces(s[1..]);
      assert s == [s[0]] + s[1..];
      assert multiset(s) == multiset{s[0]} + multiset(s[1..]);
      assert AllSpaces(s) <==> IsSpace(s[0]) && AllSpaces(s[1..]);
      if IsSpace(s[0]) then rest
      else
        assert multiset([s[0]] + rest) == multiset{s[0]} + multiset(rest);
        [s[0]] + rest
  }

  /** Stripping works piecewise, so the characters that remain keep their order. */
  lemma {:induction false} StripSpacesAppend(a: string, b: string)
    ensures StripSpaces(a + b) == StripSpaces(a) + StripSpaces(b)
  {
    if a == [] {
      assert a + b == b;
    } else {
      assert (a + b)[0] == a[0];
      assert (a + b)[1..] == a[1..] + b;
      StripSpacesAppend(a[1..], b);
    }
  }

  /** A string without whitespace is left as it is. */
  lemma {:induction false} StripSpacesKeepsClean(s: string)
    requires NoSpaces(s)
    ensures StripSpaces(s) == s
  {
    if s != [] {
      StripSpacesKeepsClean(s[1..]);
    }
  }

  lemma StripSpacesIdempotent(s: string)
    ensures StripSpaces(StripSpaces(s)) == StripSpaces(s)
  {
    StripSpacesKeepsClean(StripSpaces(s));
  }

  /** `trimStart()`: the suffix that remains once the leading whitespace is dropped. */
  function TrimStart(s: string): (r: string)
    ensures |r| <= |s| && r == s[|s| - |r|..]
    ensures AllSpaces(s[..|s| - |r|])
    ensures r != [] ==> !IsSpace(r[0])
  {
    if s != [] && IsSpace(s[0]) then TrimStart(s[1..]) else s
  }

  /** `trimEnd()`: the prefix that remains once the trailing whitespace is dropped. */
  function TrimEnd(s: string): (r: string)
    ensures |r| <= |s| && r == s[..|r|]
    ensures AllSpaces(s[|r|..])
    ensures r != [] ==> !IsSpace(r[|r| - 1])
  {
    if s != [] && IsSpace(s[|s| - 1]) then
      var r := TrimEnd(s[..|s| - 1]);
      assert forall i :: |r| <= i < |s| - 1 ==> s[..|s| - 1][|r|..][i - |r|] == s[i];
      r
    else s
  }

  /** `r` is the piece of `s` starting at `k`, with only whitespace around it. */
  predicate TrimmedAt(s: string, r: string, k: int) {
    0 <= k && k + |r| <= |s| && r == s[k..k + |r|] && AllSpaces(s[..k]) && AllSpaces(s[k + |r|..])
  }

  /** `trim()`: whitespace removed from both ends and nowhere else. */
  function Trim(s: string): (r: string)
    ensures r != [] ==> !IsSpace(r[0]) && !IsSpace(r[|r| - 1])
    ensures exists k :: TrimmedAt(s, r, k)
  {
    var t := TrimStart(s);
    var r := TrimEnd(t);
    TrimPieces(s, t, r);
    r
  }

  /** Dropping leading whitespace (leaving `t`) and then trailing whitespace (leaving `r`)
      leaves the piece of `s` that has only whitespace around it. */
  lemma TrimPieces(s: string, t: string, r: string)
    requires |t| <= |s| && t == s[|s| - |t|..] && AllSpaces(s[..|s| - |t|])
    requires t != [] ==> !IsSpace(t[0])
    requires |r| <= |t| && r == t[..|r|] && AllSpaces(t[|r|..])
    requires r != [] ==> !IsSpace(r[|r| - 1])
    ensures r != [] ==> !IsSpace(r[0]) && !IsSpace(r[|r| - 1])
    ensures TrimmedAt(s, r, |s| - |t|)
  {
    var k := |s| - |t|;
    assert r != [] ==> r[0] == t[0];
    assert s[k..k + |r|] == t[..|r|];
    assert s[k + |r|..] == t[|r|..];
  }

  /** A string without whitespace is left as it is. */
  lemma TrimKeepsClean(s: string)
    requires NoSpaces(s)
    ensures Trim(s) == s
  {
    assert TrimStart(s) == s;
    assert TrimEnd(s) == s;
  }

  /** At most one piece of a string has only whitespace around it and no whitespace at
      either end, so `trim()` is determined by that description. */
  lemma TrimmedUnique(s: string, r1: string, k1: int, r2: string, k2: int)
    requires TrimmedAt(s, r1, k1) && TrimmedAt(s, r2, k2)
    requires r1 != [] ==> !IsSpace(r1[0]) && !IsSpace(r1[|r1| - 1])
    requires r2 != [] ==> !IsSpace(r2[0]) && !IsSpace(r2[|r2| - 1])
    ensures r1 == r2
  {
    forall i | 0 <= i < k1 || k1 + |r1| <= i < |s|
      ensures IsSpace(s[i])
    {
      if i < k1 { assert s[..k1][i] == s[i]; } else { assert s[k1 + |r1|..][i - k1 - |r1|] == s[i]; }
    }
    forall i | 0 <= i < k2 || k2 + |r2| <= i < |s|
      ensures IsSpace(s[i])
    {
      if i < k2 { assert s[..k2][i] == s[i]; } else { assert s[k2 + |r2|..][i - k2 - |r2|] == s[i]; }
    }
    assert r1 != [] ==> s[k1] == r1[0] && s[k1 + |r1| - 1] == r1[|r1| - 1];
    assert r2 != [] ==> s[k2] == r2[0] && s[k2 + |r2| - 1] == r2[|r2| - 1];
    assert |r1| == |r2| && (r1 != [] ==> k1 == k2);
  }

  /** Trimming a core with no whitespace at its ends, padded with whitespace on both
      sides, gives back the core. */
  lemma TrimPadded(w1: string, s: string, w2: string)
    requires AllSpaces(w1) && AllSpaces(w2)
    requires s != [] ==> !IsSpace(s[0]) && !IsSpace(s[|s| - 1])
    ensures Trim(w1 + s + w2) == s
  {
    var x := w1 + s + w2;
    assert TrimmedAt(x, s, |w1|) by {
      assert x[..|w1|] == w1;
      assert x[|w1|..|w1| + |s|] == s;
      assert x[|w1| + |s|..] == w2;
    }
    var k :| TrimmedAt(x, Trim(x), k);
    TrimmedUnique(x, Trim(x), k, s, |w1|);
  }

  // ---------------------------------------------------------------------------
  // ASCII case mapping: `toLowerCase()` and `toUpperCase()`
  // ---------------------------------------------------------------------------

  function LowerChar(c: char): (r: char)
    ensures !('A' <= r <= 'Z')
    ensures !('A' <= c <= 'Z') ==> r == c
  {
    if 'A' <= c <= 'Z' then (c as int + 32) as char else c
  }

  function UpperChar(c: char): (r: char)
    ensures !('a' <= r <= 'z')
    ensures !('a' <= c <= 'z') ==> r == c
  {
    if 'a' <= c <= 'z' then (c as int - 32) as char else c
  }

  /** `toLowerCase()`: no upper-case letter is left, and every other character stays. */
  function Lower(s: string): (r: string)
    ensures |r| == |s|
    ensures forall i :: 0 <= i < |s| ==> !('A' <= r[i] <= 'Z')
    ensures forall i :: 0 <= i < |s| && 'A' <= s[i] <= 'Z' ==> r[i] as int == s[i] as int + 32
    ensures forall i :: 0 <= i < |s| && !('A' <= s[i] <= 'Z') ==> r[i] == s[i]
  {
    seq(|s|, i requires 0 <= i < |s| => LowerChar(s[i]))
  }

  /** `toUpperCase()`: no lower-case letter is left, and every other character stays. */
  function Upper(s: string): (r: string)
    ensures |r| == |s|
    ensures forall i :: 0 <= i < |s| ==> !('a' <= r[i] <= 'z')
    ensures forall i :: 0 <= i < |s| && 'a' <= s[i] <= 'z' ==> r[i] as int == s[i] as int - 32
    ensures forall i :: 0 <= i < |s| && !('a' <= s[i] <= 'z') ==> r[i] == s[i]
  {
    seq(|s|, i requires 0 <= i < |s| => UpperChar(s[i]))
  }

  /** Lower-casing forgets what upper-casing did, so comparing lower-cased strings ignores case. */
  lemma LowerUpper(s: string)
    ensures Lower(Upper(s)) == Lower(s)
  {
    var u := Upper(s);
    forall i | 0 <= i < |s|
      ensures Lower(u)[i] == Lower(s)[i]
    {
      if 'a' <= s[i] <= 'z' {
        assert 'A' <= u[i] <= 'Z';
      }
    }
  }

  // ---------------------------------------------------------------------------
  // Searching: `indexOf`, `includes` and `replace` with a string pattern
  // ---------------------------------------------------------------------------

  /** `pat` occurs in `s` starting at index `k`. */
  predicate OccursAt(pat: string, s: string, k: int) {
    0 <= k && k + |pat| <= |s| && s[k..k + |pat|] == pat
  }

  /** The occurrences of `pat` in `s` past its first character are those in `s[1..]`, shifted. */
  lemma OccursShift(pat: string, s: string)
    requires s != []
    ensures forall k :: OccursAt(pat, s[1..], k) ==> OccursAt(pat, s, k + 1)
    ensures forall k :: 1 <= k && OccursAt(pat, s, k) ==> OccursAt(pat, s[1..], k - 1)
  {
    forall k | OccursAt(pat, s[1..], k)
      ensures OccursAt(pat, s, k + 1)
    {
      assert s[1..][k..k + |pat|] == s[k + 1..k + 1 + |pat|];
    }
    forall k | 1 <= k && OccursAt(pat, s, k)
      ensures OccursAt(pat, s[1..], k - 1)
    {
      assert s[1..][k - 1..k - 1 + |pat|] == s[k..k + |pat|];
    }
  }

  /** `s.indexOf(pat)`: the first index at which `pat` occurs, or -1 when there is none. */
  function IndexOf(s: string, pat: string): (r: int)
    ensures -1 <= r <= |s|
    ensures r == -1 <==> forall k :: !OccursAt(pat, s, k)
    ensures r >= 0 ==> OccursAt(pat, s, r) && forall k :: 0 <= k < r ==> !OccursAt(pat, s, k)
  {
    if |pat| > |s| then -1
    else if s[..|pat|] == pat then
      assert OccursAt(pat, s, 0);
      0
    else
      var r := IndexOf(s[1..], pat);
      OccursShift(pat, s);
      if r < 0 then -1 else r + 1
  }

  /** `s.includes(q)`: some window of `s` spells `q`; the empty query is in every string. */
  function Includes(s: string, q: string): (b: bool)
    ensures b <==> exists k :: OccursAt(q, s, k)
    ensures q == [] ==> b
  {
    assert q == [] ==> OccursAt(q, s, 0);
    IndexOf(s, q) >= 0
  }

  /** `s.replace(pat, '')` with a string pattern: only the first occurrence is removed. */
  function RemoveFirst(s: string, pat: string): (r: string)
    ensures (forall k :: !OccursAt(pat, s, k)) ==> r == s
    ensures OccursAt(pat, s, 0) ==> r == s[|pat|..]
  {
    var k := IndexOf(s, pat);
    if k < 0 then s else s[..k] + s[k + |pat|..]
  }

  /** Wherever the first occurrence is, it is the one removed, and the rest is kept in order. */
  lemma RemoveFirstAt(s: string, pat: string, k: int)
    requires OccursAt(pat, s, k)
    requires forall j :: 0 <= j < k ==> !OccursAt(pat, s, j)
    ensures RemoveFirst(s, pat) == s[..k] + s[k + |pat|..]
  {
  }

  // ---------------------------------------------------------------------------
  // `split` on a one-character separator, and its inverse `join`
  // ---------------------------------------------------------------------------

  /** `s.split(sep)`: the maximal separator-free pieces, in order, empty ones included. */
  function Split(s: string, sep: char): (parts: seq<string>)
    ensures |parts| >= 1
    ensures forall i :: 0 <= i < |parts| ==> sep !in parts[i]
    ensures |parts| == 1 <==> sep !in s
  {
    if s == [] then [[]]
    else
      var rest := Split(s[1..], sep);
      assert s == [s[0]] + s[1..];
      if s[0] == sep then [[]] + rest
      else [[s[0]] + rest[0]] + rest[1..]
  }

  /** `parts.join(sep)` */
  function Join(parts: seq<string>, sep: char): (r: string)
    requires |parts| >= 1
  {
    if |parts| == 1 then parts[0] else parts[0] + [sep] + Join(parts[1..], sep)
  }

  /** Splitting loses nothing: joining the pieces gives the string back. */
  lemma {:induction false} JoinSplit(s: string, sep: char)
    ensures Join(Split(s, sep), sep) == s
  {
    if s != [] {
      var rest := Split(s[1..], sep);
      JoinSplit(s[1..], sep);
      if s[0] != sep && |rest| > 1 {
        assert Join(rest, sep) == rest[0] + [sep] + Join(rest[1..], sep);
      }
    }
  }

  /** The first piece is everything before the first separator. */
  lemma {:induction false} SplitAtFirst(a: string, sep: char, b: string)
    requires sep !in a
    ensures Split(a + [sep] + b, sep) == [a] + Split(b, sep)
  {
    if a == [] {
      assert a + [sep] + b == [sep] + b;
      assert ([sep] + b)[1..] == b;
    } else {
      assert (a + [sep] + b)[1..] == a[1..] + [sep] + b;
      SplitAtFirst(a[1..], sep, b);
      assert [a[0]] + a[1..] == a;
    }
  }

  /** A string without the separator is a single piece. */
  lemma SplitWhole(c: string, sep: char)
    requires sep !in c
    ensures Split(c, sep) == [c]
  {
    JoinSplit(c, sep);
  }

  /** Splitting three pieces joined by the separator: each separator-free piece in front
      comes off whole. */
  lemma SplitThree(a: string, b: string, c: string, sep: char)
    requires sep !in a
    ensures Split(a + [sep] + (b + [sep] + c), sep) == [a] + Split(b + [sep] + c, sep)
    ensures sep !in b ==> Split(b + [sep] + c, sep) == [b] + Split(c, sep)
  {
    SplitAtFirst(a, sep, b + [sep] + c);
    if sep !in b {
      SplitAtFirst(b, sep, c);
    }
  }

  // ---------------------------------------------------------------------------
  // Numbers: template-literal rendering and `parseInt`
  // ---------------------------------------------------------------------------

  /** A JavaScript number as far as the screens use one: an integer, or NaN. */
  datatype JsNumber = Int(value: int) | NaN

  predicate IsDecimalDigit(c: char) {
    '0' <= c <= '9'
  }

  function DigitChar(d: nat): (r: char)
    requires d < 10
    ensures IsDecimalDigit(r)
  {
    ('0' as int + d) as char
  }

  /** The decimal numeral of `n` as `String(n)` writes it: digits only, no leading zero. */
  function NatToString(n: nat): (r: string)
    ensures |r| >= 1
    ensures forall i :: 0 <= i < |r| ==> IsDecimalDigit(r[i])
    ensures r[0] == '0' ==> n == 0
  {
    if n < 10 then [DigitChar(n)] else NatToString(n / 10) + [DigitChar(n % 10)]
  }

  /** `${x}`: how a template literal writes a number. */
  function NumberToString(x: JsNumber): (r: string)
    ensures forall i :: 0 <= i < |r| ==> r[i] != '_'
    ensures x.Int? ==> r != [] && (r[0] == '-' <==> x.value < 0)
    ensures x.Int? ==> forall i :: (if x.value < 0 then 1 else 0) <= i < |r| ==> IsDecimalDigit(r[i])
  {
    match x
    case NaN => "NaN"
    case Int(v) => if v < 0 then "-" + NatToString(-v) else NatToString(v)
  }

  /** The value of `c` as a digit of base `radix`, or -1 when it is not one. */
  function DigitValue(c: char, radix: nat): (d: int)
    requires radix == 10 || radix == 16
    ensures -1 <= d < radix
    ensures d >= 0 ==> IsDecimalDigit(c) || radix == 16
  {
    if '0' <= c <= '9' then c as int - '0' as int
    else if radix == 16 && 'a' <= c <= 'f' then c as int - 'a' as int + 10
    else if radix == 16 && 'A' <= c <= 'F' then c as int - 'A' as int + 10
    else -1
  }

  predicate AllDigits(z: string, radix: nat)
    requires radix == 10 || radix == 16
  {
    forall i :: 0 <= i < |z| ==> DigitValue(z[i], radix) >= 0
  }

  /** The longest prefix of `s` made of digits of base `radix`. */
  function DigitPrefix(s: string, radix: nat): (z: string)
    requires radix == 10 || radix == 16
    ensures |z| <= |s| && z == s[..|z|]
    ensures AllDigits(z, radix)
    ensures |z| < |s| ==> DigitValue(s[|z|], radix) < 0
  {
    if s != [] && DigitValue(s[0], radix) >= 0 then [s[0]] + DigitPrefix(s[1..], radix) else []
  }

  /** The number that the digits `z` denote in base `radix`, most significant first. */
  function DigitsValue(z: string, radix: nat): (r: nat)
    requires radix == 10 || radix == 16
    requires AllDigits(z, radix)
  {
    if z == [] then 0 else DigitsValue(z[..|z| - 1], radix) * radix + DigitValue(z[|z| - 1], radix)
  }

  /** `parseInt(s)` without a radix argument (section 19.2.5 of ECMA-262): leading whitespace
      skipped, an optional sign, then the digits that `ParseDigits` reads. A string with no
      decimal digit at all is NaN. */
  function ParseInt(s: string): (r: JsNumber)
    ensures (forall i :: 0 <= i < |s| ==> !IsDecimalDigit(s[i])) ==> r == NaN
  {
    var t := TrimStart(s);
    var negative := t != [] && t[0] == '-';
    var u := if t != [] && (t[0] == '-' || t[0] == '+') then t[1..] else t;
    ParseDigits(u, negative)
  }

  /** The unsigned part of `parseInt`: a `0x`/`0X` prefix selects base 16, then the longest
      run of digits is read; NaN when that run is empty. */
  function ParseDigits(u: string, negative: bool): (r: JsNumber)
    ensures (forall i :: 0 <= i < |u| ==> !IsDecimalDigit(u[i])) ==> r == NaN
  {
    var hex := |u| >= 2 && u[0] == '0' && (u[1] == 'x' || u[1] == 'X');
    var radix := if hex then 16 else 10;
    var digits := DigitPrefix(if hex then u[2..] else u, radix);
    if digits == [] then NaN
    else
      var magnitude: int := DigitsValue(digits, radix);
      Int(if negative then -magnitude else magnitude)
  }

  /** A run of digits is its own longest digit prefix. */
  lemma {:induction false} DigitPrefixOfDigits(z: string, radix: nat)
    requires radix == 10 || radix == 16
    requires AllDigits(z, radix)
    ensures DigitPrefix(z, radix) == z
  {
    if z != [] {
      DigitPrefixOfDigits(z[1..], radix);
    }
  }

  /** Reading back a decimal numeral gives the number that was written. */
  lemma {:induction false} DigitsValueOfNumeral(n: nat)
    ensures AllDigits(NatToString(n), 10)
    ensures DigitsValue(NatToString(n), 10) == n
  {
    var z := NatToString(n);
    if n >= 10 {
      DigitsValueOfNumeral(n / 10);
      assert z[..|z| - 1] == NatToString(n / 10);
    }
  }

  /** `parseInt` reads back a numeral, with or without a minus sign, as written. */
  lemma ParseIntOfNumeral(m: nat, sign: string)
    requires sign == "" || sign == "-"
    ensures ParseInt(sign + NatToString(m)) == Int(if sign == "-" then -(m as int) else m)
  {
    var z := NatToString(m);
    var s := sign + z;
    assert s[0] == '-' || IsDecimalDigit(s[0]);
    assert !IsSpace(s[0]);
    var t := TrimStart(s);
    assert t == s;
    var u := if t != [] && (t[0] == '-' || t[0] == '+') then t[1..] else t;
    assert u == z;
    ParseDigitsOfNumeral(m, sign == "-");
  }

  lemma ParseDigitsOfNumeral(m: nat, negative: bool)
    ensures ParseDigits(NatToString(m), negative) == Int(if negative then -(m as int) else m)
  {
    var z := NatToString(m);
    DigitsValueOfNumeral(m);
    DigitPrefixOfDigits(z, 10);
    assert |z| >= 2 ==> IsDecimalDigit(z[1]);
  }

  /** With a `0x` prefix the digits are read in base 16. */
  lemma ParseDigitsOfHex(z: string, negative: bool)
    requires AllDigits(z, 16)
    ensures ParseDigits("0x" + z, negative) ==
              if z == [] then NaN
              else Int(if negative then -(DigitsValue(z, 16) as int) else DigitsValue(z, 16))
  {
    var u := "0x" + z;
    assert u[2..] == z;
    DigitPrefixOfDigits(z, 16);
  }

  /** `parseInt` reads back the rendering of every integer. */
  lemma ParseIntOfInt(v: int)
    ensures ParseInt(NumberToString(Int(v))) == Int(v)
  {
    var m: nat := if v < 0 then -v else v;
    var sign := if v < 0 then "-" else "";
    assert NumberToString(Int(v)) == sign + NatToString(m);
    ParseIntOfNumeral(m, sign);
  }

  /** `parseInt` inverts the template-literal rendering of every integer and of NaN. */
  lemma ParseIntOfNumberToString(x: JsNumber)
    ensures ParseInt(NumberToString(x)) == x
  {
    if x.NaN? {
      var s := NumberToString(x);
      assert forall i :: 0 <= i < |s| ==> !IsDecimalDigit(s[i]);
    } else {
      ParseIntOfInt(x.value);
    }
  }
}
