/** The JavaScript string operations the front-end relies on, with their
    ECMAScript meaning: `trim`, `includes`, `startsWith`/`endsWith`,
    `split` on one character, `join`, template-literal rendering of integers,
    `parseInt`, `toLowerCase` and the UTF-16 `length`. */
module JsText {
  import opened Wrappers
  import Seqs

  /** ECMAScript WhiteSpace and LineTerminator code points (what `trim` removes). */
  predicate IsSpace(c: char)
  {
    || c == '\t' || c == '\n' || c == '\U{000B}' || c == '\U{000C}' || c == '\r'
    || c == ' ' || c == '\U{00A0}' || c == '\U{1680}'
    || ('\U{2000}' <= c <= '\U{200A}')
    || c == '\U{2028}' || c == '\U{2029}' || c == '\U{202F}' || c == '\U{205F}'
    || c == '\U{3000}' || c == '\U{FEFF}'
  }

  /** A string that `trim` reduces to "" (and that is therefore falsy once trimmed). */
  predicate IsBlank(s: string)
  {
    forall i :: 0 <= i < |s| ==> IsSpace(s[i])
  }

  function TrimStart(s: string): (r: string)
    ensures |r| <= |s| && r == s[|s| - |r|..]
    ensures r == [] || !IsSpace(r[0])
    ensures forall i :: 0 <= i < |s| - |r| ==> IsSpace(s[i])
    decreases |s|
  {
    if |s| > 0 && IsSpace(s[0]) then TrimStart(s[1..]) else s
  }

  function TrimEnd(s: string): (r: string)
    ensures |r| <= |s| && r == s[..|r|]
    ensures r == [] || !IsSpace(r[|r| - 1])
    ensures forall i :: |r| <= i < |s| ==> IsSpace(s[i])
    decreases |s|
  {
    if |s| > 0 && IsSpace(s[|s| - 1]) then TrimEnd(s[..|s| - 1]) else s
  }

  /** `s.trim()`: the longest infix of `s` that neither starts nor ends with white space. */
  function Trim(s: string): (r: string)
    ensures |r| <= |s|
    ensures r == [] || (!IsSpace(r[0]) && !IsSpace(r[|r| - 1]))
    ensures r == [] <==> IsBlank(s)
  {
    var t := TrimStart(s);
    var r := TrimEnd(t);
    assert r == [] ==> t == [];
    r
  }

  /** Trimming twice is trimming once. */
  lemma TrimIdempotent(s: string)
    ensures Trim(Trim(s)) == Trim(s)
  {
    var r := Trim(s);
    assert TrimStart(r) == r;
    assert TrimEnd(r) == r;
  }

  /** `s.startsWith(p)`. */
  predicate StartsWith(s: string, p: string)
  {
    |p| <= |s| && s[..|p|] == p
  }

  /** A string starts with each of its prefixes. */
  lemma StartsWithConcat(a: string, b: string)
    ensures StartsWith(a + b, a)
  {
    assert (a + b)[..|a|] == a;
  }

  /** `s.endsWith(p)`. */
  predicate EndsWith(s: string, p: string)
  {
    |p| <= |s| && s[|s| - |p|..] == p
  }

  /** `s.includes(sub)`: `sub` occurs somewhere in `s`. */
  predicate Contains(s: string, sub: string)
    decreases |s|
  {
    StartsWith(s, sub) || (|s| > 0 && Contains(s[1..], sub))
  }

  /** An occurrence at a known offset is an occurrence. */
  lemma {:induction false} ContainsAt(s: string, k: nat, sub: string)
    requires k + |sub| <= |s| && s[k..k + |sub|] == sub
    ensures Contains(s, sub)
    decreases k
  {
    if k > 0 {
      assert s[1..][k - 1..k - 1 + |sub|] == sub;
      ContainsAt(s[1..], k - 1, sub);
    }
  }

  /** The middle part of a concatenation occurs in it. */
  lemma ContainsMiddle(a: string, b: string, c: string)
    ensures Contains(a + b + c, b)
  {
    var s := a + b + c;
    assert s[|a|..|a| + |b|] == b;
    ContainsAt(s, |a|, b);
  }

  /** Every string includes the empty string, so an empty search query matches everything. */
  lemma ContainsEmpty(s: string)
    ensures Contains(s, "")
  {
    ContainsAt(s, 0, "");
  }

  /** Each part of a join occurs in the joined string. */
  lemma {:induction false} JoinContainsPart(parts: seq<string>, sep: string, i: nat)
    requires i < |parts|
    ensures Contains(Join(parts, sep), parts[i])
    decreases |parts|
  {
    if |parts| == 1 {
      ContainsAt(parts[0], 0, parts[0]);
    } else if i == 0 {
      var rest := sep + Join(parts[1..], sep);
      assert Join(parts, sep) == parts[0] + rest;
      ContainsMiddle("", parts[0], rest);
      assert "" + parts[0] + rest == parts[0] + rest;
    } else {
      JoinContainsPart(parts[1..], sep, i - 1);
      ContainsInSuffix(parts[0] + sep, Join(parts[1..], sep), parts[i]);
      assert Join(parts, sep) == (parts[0] + sep) + Join(parts[1..], sep);
    }
  }

  /** An occurrence in a suffix is an occurrence in the whole. */
  lemma ContainsInSuffix(a: string, b: string, sub: string)
    requires Contains(b, sub)
    ensures Contains(a + b, sub)
  {
    var k := ContainsWitness(b, sub);
    assert (a + b)[|a| + k..|a| + k + |sub|] == b[k..k + |sub|];
    ContainsAt(a + b, |a| + k, sub);
  }

  /** A suffix of something that occurs also occurs. */
  lemma EndsWithContained(t: string, suffix: string, r: string, sub: string)
    requires EndsWith(t, suffix) && EndsWith(suffix, sub) && Contains(r, t)
    ensures Contains(r, sub)
  {
    ContainsSuffixOf(r, t, sub);
  }

  lemma ContainsSuffixOf(r: string, t: string, sub: string)
    requires Contains(r, t) && EndsWith(t, sub)
    ensures Contains(r, sub)
  {
    var k := ContainsWitness(r, t);
    assert r[k..k + |t|] == t;
    var j := k + |t| - |sub|;
    assert r[j..j + |sub|] == t[|t| - |sub|..];
    ContainsAt(r, j, sub);
  }

  /** A prefix of something that occurs also occurs. */
  lemma ContainsPrefixOf(r: string, t: string, sub: string)
    requires Contains(r, t) && StartsWith(t, sub)
    ensures Contains(r, sub)
  {
    var k := ContainsWitness(r, t);
    assert r[k..k + |sub|] == t[..|sub|];
    ContainsAt(r, k, sub);
  }

  /** A string lacking one of the characters of `sub` does not include it. */
  lemma MissingCharNotContained(s: string, sub: string, c: char)
    requires c in sub && c !in s
    ensures !Contains(s, sub)
  {
    if Contains(s, sub) {
      var k := ContainsWitness(s, sub);
      assert false;
    }
  }

  /** The offset of an occurrence. */
  lemma {:induction false} ContainsWitness(s: string, sub: string) returns (k: nat)
    requires Contains(s, sub)
    ensures k + |sub| <= |s| && s[k..k + |sub|] == sub
    decreases |s|
  {
    if StartsWith(s, sub) {
      k := 0;
    } else {
      var k' := ContainsWitness(s[1..], sub);
      k := k' + 1;
    }
  }

  /** `s.split(sep)` for a one-character separator. */
  function Split(s: string, sep: char): (r: seq<string>)
    ensures |r| >= 1
    ensures forall i :: 0 <= i < |r| ==> sep !in r[i]
    decreases |s|
  {
    var k := Seqs.FindIndex(s, (c: char) => c == sep);
    if k < 0 then [s]
    else
      var rest := Split(s[k + 1..], sep);
      SplitPieceFree(s, sep, k, rest);
      [s[..k]] + rest
  }

  /** The piece before the first separator holds no separator, so neither
      does the split that starts with it. */
  lemma SplitPieceFree(s: string, sep: char, k: int, rest: seq<string>)
    requires k == Seqs.FindIndex(s, (c: char) => c == sep) && 0 <= k
    requires forall i :: 0 <= i < |rest| ==> sep !in rest[i]
    ensures var r := [s[..k]] + rest; forall i :: 0 <= i < |r| ==> sep !in r[i]
  {
    assert forall j :: 0 <= j < k ==> s[j] != sep;
    assert sep !in s[..k];
    var r := [s[..k]] + rest;
    forall i | 0 <= i < |r| ensures sep !in r[i] {
      if i > 0 { assert r[i] == rest[i - 1]; }
    }
  }

  /** `parts.join(sep)`. */
  function Join(parts: seq<string>, sep: string): string
    decreases |parts|
  {
    if |parts| == 0 then ""
    else if |parts| == 1 then parts[0]
    else parts[0] + sep + Join(parts[1..], sep)
  }

  /** A join begins with its first part and ends with its last. */
  lemma {:induction false} JoinEnds(parts: seq<string>, sep: string)
    requires |parts| >= 1
    ensures StartsWith(Join(parts, sep), parts[0])
    ensures EndsWith(Join(parts, sep), parts[|parts| - 1])
    decreases |parts|
  {
    if |parts| > 1 {
      JoinEnds(parts[1..], sep);
      var rest := Join(parts[1..], sep);
      assert Join(parts, sep) == parts[0] + sep + rest;
      assert parts[1..][|parts[1..]| - 1] == parts[|parts| - 1];
      assert (parts[0] + sep + rest)[..|parts[0]|] == parts[0];
      assert (parts[0] + sep + rest)[|parts[0] + sep + rest| - |parts[|parts| - 1]|..] == rest[|rest| - |parts[|parts| - 1]|..];
    }
  }

  /** Splitting and re-joining with the same separator gives back the string. */
  lemma {:induction false} JoinSplit(s: string, sep: char)
    ensures Join(Split(s, sep), [sep]) == s
    decreases |s|
  {
    var k := Seqs.FindIndex(s, (c: char) => c == sep);
    if k >= 0 {
      var rest := Split(s[k + 1..], sep);
      JoinSplit(s[k + 1..], sep);
      assert Split(s, sep) == [s[..k]] + rest;
      assert s == s[..k] + [sep] + s[k + 1..];
    }
  }

  /** Joining parts free of the separator and splitting again gives back the parts. */
  lemma {:induction false} SplitJoin(parts: seq<string>, sep: char)
    requires |parts| >= 1
    requires forall i :: 0 <= i < |parts| ==> sep !in parts[i]
    ensures Split(Join(parts, [sep]), sep) == parts
    decreases |parts|
  {
    if |parts| == 1 {
      SplitWithoutSep(parts[0], sep);
    } else {
      var rest := Join(parts[1..], [sep]);
      SplitAtFirstSep(parts[0], sep, rest);
      SplitJoin(parts[1..], sep);
      assert parts == [parts[0]] + parts[1..];
    }
  }

  lemma SplitWithoutSep(s: string, sep: char)
    requires sep !in s
    ensures Split(s, sep) == [s]
  {
    assert forall j :: 0 <= j < |s| ==> s[j] != sep;
  }

  /** The first part of a split is the prefix before the first separator, or
      the whole text when there is none. */
  lemma SplitHeadPrefix(s: string, sep: char)
    ensures var h := Split(s, sep)[0];
      sep !in h && |h| <= |s| && s[..|h|] == h && (|h| < |s| ==> s[|h|] == sep)
  {
    var k := Seqs.FindIndex(s, (c: char) => c == sep);
    if k >= 0 {
      assert Split(s, sep)[0] == s[..k];
    }
  }

  lemma SplitAtFirstSep(a: string, sep: char, b: string)
    requires sep !in a
    ensures Split(a + [sep] + b, sep) == [a] + Split(b, sep)
  {
    var s := a + [sep] + b;
    var p := (c: char) => c == sep;
    assert p(s[|a|]);
    assert forall j :: 0 <= j < |a| ==> !p(s[j]) by {
      forall j | 0 <= j < |a| ensures !p(s[j]) {
        assert s[j] == a[j];
      }
    }
    assert Seqs.FindIndex(s, p) == |a|;
    assert s[..|a|] == a;
    assert s[|a| + 1..] == b;
  }

  predicate IsDigit(c: char)
  {
    '0' <= c <= '9'
  }

  predicate AllDigits(s: string)
  {
    forall i :: 0 <= i < |s| ==> IsDigit(s[i])
  }

  function DigitChar(d: nat): (c: char)
    requires d < 10
    ensures IsDigit(c)
  {
    ['0', '1', '2', '3', '4', '5', '6', '7', '8', '9'][d]
  }

  /** The value of a string of decimal digits. */
  function DigitsValue(s: string): nat
    requires AllDigits(s)
    decreases |s|
  {
    if |s| == 0 then 0
    else DigitsValue(s[..|s| - 1]) * 10 + (s[|s| - 1] as int - '0' as int)
  }

  /** `${n}` for a non-negative integer: its shortest decimal numeral. */
  function NatToString(n: nat): (r: string)
    ensures |r| >= 1 && AllDigits(r)
    ensures |r| > 1 ==> r[0] != '0'
    decreases n
  {
    if n < 10 then [DigitChar(n)] else NatToString(n / 10) + [DigitChar(n % 10)]
  }

  /** The numeral written for `n` reads back as `n`. */
  lemma {:induction false} NatToStringValue(n: nat)
    ensures DigitsValue(NatToString(n)) == n
    decreases n
  {
    if n >= 10 {
      NatToStringValue(n / 10);
      var s := NatToString(n);
      var last := DigitChar(n % 10);
      assert s == NatToString(n / 10) + [last];
      assert s[..|s| - 1] == NatToString(n / 10) && s[|s| - 1] == last;
      DigitCharValue(n % 10);
      assert DigitsValue(s) == (n / 10) * 10 + n % 10;
    } else {
      DigitCharValue(n);
      assert NatToString(n) == [DigitChar(n)] && [DigitChar(n)][..0] == [];
    }
  }

  /** A digit character reads back as its digit. */
  lemma DigitCharValue(d: nat)
    requires d < 10
    ensures DigitChar(d) as int - '0' as int == d
  {
  }

  /** `${i}` for any integer. */
  function IntToString(i: int): (r: string)
    ensures |r| >= 1
    ensures i >= 0 ==> AllDigits(r)
    ensures i < 0 ==> r[0] == '-' && AllDigits(r[1..])
  {
    if i < 0 then "-" + NatToString(-i) else NatToString(i)
  }

  /** The longest prefix of `s` made of decimal digits. */
  function LeadingDigits(s: string): (r: string)
    ensures r <= s && AllDigits(r)
    ensures |r| == |s| || !IsDigit(s[|r|])
    decreases |s|
  {
    if |s| > 0 && IsDigit(s[0]) then [s[0]] + LeadingDigits(s[1..]) else ""
  }

  /** `parseInt(s)` in base ten: leading white space is skipped, an optional sign is read,
      then as many digits as follow; `None` stands for `NaN` (no digit at all). */
  function ParseInt(s: string): (r: Option<int>)
  {
    var t := TrimStart(s);
    var signed := |t| > 0 && (t[0] == '-' || t[0] == '+');
    var digits := LeadingDigits(if signed then t[1..] else t);
    if |digits| == 0 then None
    else if signed && t[0] == '-' then Some(0 - DigitsValue(digits))
    else Some(DigitsValue(digits))
  }

  /** `parseInt` reads back every integer rendered by a template literal. */
  lemma ParseIntOfIntToString(i: int)
    ensures ParseInt(IntToString(i)) == Some(i)
  {
    var n: nat := if i < 0 then -i else i;
    var d := NatToString(n);
    NatToStringValue(n);
    var s := IntToString(i);
    if i < 0 {
      assert s[1..] == d;
      ParseIntSigned(s);
    } else {
      ParseIntUnsigned(d);
    }
  }

  /** A numeral reads back as its value. */
  lemma ParseIntUnsigned(d: string)
    requires |d| >= 1 && AllDigits(d)
    ensures ParseInt(d) == Some(DigitsValue(d))
  {
    LeadingDigitsOfDigits(d);
    assert !IsSpace(d[0]) by {
      assert IsDigit(d[0]);
    }
    TrimStartKeeps(d);
  }

  /** A minus sign followed by a numeral reads back as the negated value. */
  lemma ParseIntSigned(s: string)
    requires |s| >= 2 && s[0] == '-' && AllDigits(s[1..])
    ensures ParseInt(s) == Some(0 - DigitsValue(s[1..]))
  {
    TrimStartKeeps(s);
    LeadingDigitsOfDigits(s[1..]);
  }

  /** `trimStart` leaves a text that does not start with white space alone. */
  lemma TrimStartKeeps(s: string)
    requires |s| > 0 && !IsSpace(s[0])
    ensures TrimStart(s) == s
  {
  }

  lemma {:induction false} LeadingDigitsOfDigits(s: string)
    requires AllDigits(s)
    ensures LeadingDigits(s) == s
    decreases |s|
  {
    if |s| > 0 {
      LeadingDigitsOfDigits(s[1..]);
    }
  }

  /** `parseInt(s) || 0`: the parsed integer, with `NaN` (and 0) giving 0. */
  function IntOrZero(s: string): int
  {
    ParseInt(s).GetOr(0)
  }

  /** Lower-case mapping of one character: Basic Latin, the Russian Cyrillic block
      (including Ѐ..Џ) and the extra letters of the Kazakh alphabet. */
  function LowerChar(c: char): char
  {
    if 'A' <= c <= 'Z' then (c as int + 32) as char
    else if '\U{0410}' <= c <= '\U{042F}' then (c as int + 32) as char
    else if '\U{0400}' <= c <= '\U{040F}' then (c as int + 80) as char
    else if c == '\U{04D8}' || c == '\U{0492}' || c == '\U{049A}' || c == '\U{04A2}'
         || c == '\U{04E8}' || c == '\U{04B0}' || c == '\U{04AE}' || c == '\U{04BA}'
    then (c as int + 1) as char
    else c
  }

  /** `s.toLowerCase()` on the scripts `LowerChar` covers. */
  function ToLower(s: string): (r: string)
    ensures |r| == |s|
    ensures forall i :: 0 <= i < |s| ==> r[i] == LowerChar(s[i])
  {
    seq(|s|, i requires 0 <= i < |s| => LowerChar(s[i]))
  }

  /** Lower-casing is idempotent, so comparing lower-cased strings is stable. */
  lemma ToLowerIdempotent(s: string)
    ensures ToLower(ToLower(s)) == ToLower(s)
  {
  }

  /** JavaScript's `s.length`: the number of UTF-16 code units, so a code point
      outside the Basic Multilingual Plane counts twice. */
  function Utf16Length(s: string): (n: nat)
    ensures |s| <= n <= 2 * |s|
    decreases |s|
  {
    if |s| == 0 then 0
    else (if s[0] as int > 0xFFFF then 2 else 1) + Utf16Length(s[1..])
  }
}
