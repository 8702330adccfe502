/** Option/Result wrappers and the Python string operations the cleaning
    scripts rely on: str.strip, str.split, substring search, and the
    `\d+` first-match integer extraction (`to_int` / `_to_int`). */
module Text {

  datatype Option<T> = None | Some(value: T)

  datatype Result<T, E> = Ok(value: T) | Err(error: E)

  /** ASCII digit, the characters `\d` is modelled to match. */
  predicate IsDigit(c: char) { '0' <= c <= '9' }

  predicate AllDigits(s: string) { forall k :: 0 <= k < |s| ==> IsDigit(s[k]) }

  predicate NoDigit(s: string) { forall k :: 0 <= k < |s| ==> !IsDigit(s[k]) }

  /** The characters for which Python's str.isspace() holds. */
  predicate IsSpace(c: char)
  {
    c == ' ' || ('\t' <= c <= '\r') || ('\U{1C}' <= c <= '\U{1F}') || c == '\U{85}' || c == '\U{A0}'
    || c == '\U{1680}' || ('\U{2000}' <= c <= '\U{200A}') || c == '\U{2028}' || c == '\U{2029}'
    || c == '\U{202F}' || c == '\U{205F}' || c == '\U{3000}'
  }

  predicate AllSpace(s: string) { forall k :: 0 <= k < |s| ==> IsSpace(s[k]) }

  function DigitValue(c: char): nat
    requires IsDigit(c)
  {
    (c as int) - ('0' as int)
  }

  /** The decimal value of a digit string, most significant digit first. */
  function DigitsValue(s: string): nat
    requires AllDigits(s)
  {
    if s == [] then 0 else DigitsValue(s[..|s| - 1]) * 10 + DigitValue(s[|s| - 1])
  }

  // ---------------------------------------------------------------- strip

  /** The first index at or after i that does not hold whitespace
      (|s| when there is none). */
  function SkipSpace(s: string, i: nat): (n: nat)
    requires i <= |s|
    ensures i <= n <= |s|
    ensures forall k :: i <= k < n ==> IsSpace(s[k])
    ensures n == |s| || !IsSpace(s[n])
    decreases |s| - i
  {
    if i < |s| && IsSpace(s[i]) then SkipSpace(s, i + 1) else i
  }

  /** The end of s[..j] once its trailing whitespace is dropped. */
  function SkipSpaceBack(s: string, j: nat): (n: nat)
    requires j <= |s|
    ensures n <= j
    ensures forall k :: n <= k < j ==> IsSpace(s[k])
    ensures n == 0 || !IsSpace(s[n - 1])
  {
    if j > 0 && IsSpace(s[j - 1]) then SkipSpaceBack(s, j - 1) else j
  }

  /** Python's str.strip(): s without its leading and trailing whitespace. */
  function Strip(s: string): (r: string)
    ensures |r| <= |s|
    ensures r == [] || (!IsSpace(r[0]) && !IsSpace(r[|r| - 1]))
  {
    var i := SkipSpace(s, 0);
    if i == |s| then []
    else
      assert !IsSpace(s[i]);
      s[i..SkipSpaceBack(s, |s|)]
  }

  /** Strip removes whitespace only: the result is empty exactly when s is
      all whitespace, and otherwise is the slice of s between a whitespace
      prefix and a whitespace suffix. */
  lemma StripShape(s: string)
    ensures Strip(s) == [] <==> AllSpace(s)
    ensures Strip(s) != [] ==> SkipSpace(s, 0) < SkipSpaceBack(s, |s|)
    ensures Strip(s) != [] ==> Strip(s) == s[SkipSpace(s, 0)..SkipSpaceBack(s, |s|)]
  {
    var i := SkipSpace(s, 0);
    if i < |s| {
      assert !IsSpace(s[i]);
    }
  }

  lemma ConcatAssoc<T>(a: seq<T>, b: seq<T>, c: seq<T>)
    ensures a + (b + c) == a + b + c
  {
  }

  lemma HeadTail<T>(s: seq<T>)
    requires s != []
    ensures [s[0]] + s[1..] == s
  {
  }

  lemma ConsParts<T>(x: T, s: seq<T>)
    ensures ([x] + s)[0] == x && ([x] + s)[1..] == s
  {
  }

  lemma EmptyUnits<T>(s: seq<T>)
    ensures [] + s == s && s + [] == s
  {
  }

  lemma PrefixCancel<T>(p: seq<T>, a: seq<T>, b: seq<T>)
    ensures p + a == p + b ==> a == b
  {
    if p + a == p + b {
      assert (p + a)[|p|..] == a && (p + b)[|p|..] == b;
    }
  }

  lemma AroundParts<T>(a: seq<T>, x: T, b: seq<T>)
    ensures (a + [x] + b)[..|a|] == a
    ensures (a + [x] + b)[|a|] == x
    ensures (a + [x] + b)[|a|..] == [x] + b
  {
  }

  lemma SnocParts<T>(a: seq<T>, b: seq<T>)
    requires b != []
    ensures (a + b)[..|a + b| - 1] == a + b[..|b| - 1]
    ensures (a + b)[|a + b| - 1] == b[|b| - 1]
  {
  }

  lemma {:induction false} SkipSpaceTo(s: string, i: nat, n: nat)
    requires i <= n < |s| && !IsSpace(s[n])
    requires forall k :: i <= k < n ==> IsSpace(s[k])
    ensures SkipSpace(s, i) == n
    decreases n - i
  {
    if i < n {
      SkipSpaceTo(s, i + 1, n);
    }
  }

  lemma {:induction false} SkipSpaceBackTo(s: string, j: nat, n: nat)
    requires 0 < n <= j <= |s| && !IsSpace(s[n - 1])
    requires forall k :: n <= k < j ==> IsSpace(s[k])
    ensures SkipSpaceBack(s, j) == n
    decreases j - n
  {
    if n < j {
      SkipSpaceBackTo(s, j - 1, n);
    }
  }

  /** Strip removes exactly a whitespace prefix and suffix around text that
      starts and ends with a non-space character. */
  lemma StripAround(pre: string, t: string, post: string)
    requires AllSpace(pre) && AllSpace(post)
    requires t != [] && !IsSpace(t[0]) && !IsSpace(t[|t| - 1])
    ensures Strip(pre + t + post) == t
  {
    var s := pre + t + post;
    assert s[|pre|] == t[0] && s[|pre| + |t| - 1] == t[|t| - 1];
    assert forall k :: 0 <= k < |pre| ==> s[k] == pre[k];
    assert forall k :: |pre| + |t| <= k < |s| ==> s[k] == post[k - |pre| - |t|];
    SkipSpaceTo(s, 0, |pre|);
    SkipSpaceBackTo(s, |s|, |pre| + |t|);
    assert s[|pre|..|pre| + |t|] == t;
  }

  lemma StripNothing()
    ensures Strip("") == ""
  {
  }

  lemma StripIdempotent(s: string)
    ensures Strip(Strip(s)) == Strip(s)
  {
    var r := Strip(s);
    if r != [] {
      assert SkipSpace(r, 0) == 0;
      assert SkipSpaceBack(r, |r|) == |r|;
      assert r[0..|r|] == r;
    }
  }

  lemma StripNoSpace(s: string)
    requires forall k :: 0 <= k < |s| ==> !IsSpace(s[k])
    ensures Strip(s) == s
  {
    if s != [] {
      assert SkipSpace(s, 0) == 0;
      assert SkipSpaceBack(s, |s|) == |s|;
      assert s[0..|s|] == s;
    }
  }

  /** Whitespace is not a digit, so stripping keeps every digit. */
  lemma StripDigits(s: string)
    ensures NoDigit(Strip(s)) <==> NoDigit(s)
  {
    var r := Strip(s);
    StripShape(s);
    var i, j := SkipSpace(s, 0), SkipSpaceBack(s, |s|);
    if NoDigit(r) {
      forall k | 0 <= k < |s| ensures !IsDigit(s[k]) {
        if r != [] && i <= k < j {
          assert r[k - i] == s[k];
        } else {
          assert IsSpace(s[k]);
        }
      }
    }
  }

  // ---------------------------------------------------------------- split

  /** Python's str.split(sep) with an explicit one-character separator. */
  function Split(s: string, sep: char): (r: seq<string>)
    ensures |r| >= 1
  {
    if s == [] then [""]
    else
      var rest := Split(s[1..], sep);
      if s[0] == sep then [""] + rest
      else [[s[0]] + rest[0]] + rest[1..]
  }

  /** str.join: the inverse of Split. */
  function Join(parts: seq<string>, sep: char): string
    requires |parts| >= 1
  {
    if |parts| == 1 then parts[0] else parts[0] + [sep] + Join(parts[1..], sep)
  }

  lemma {:induction false} JoinSplit(s: string, sep: char)
    ensures Join(Split(s, sep), sep) == s
  {
    if s != [] {
      JoinSplit(s[1..], sep);
      var rest := Split(s[1..], sep);
      if s[0] != sep {
        var r := [[s[0]] + rest[0]] + rest[1..];
        if |rest| > 1 {
          assert r[1..] == rest[1..];
        }
      }
    }
  }

  lemma {:induction false} SplitWithoutSep(s: string, sep: char)
    requires sep !in s
    ensures Split(s, sep) == [s]
  {
    if s != [] {
      assert s == [s[0]] + s[1..];
      SplitWithoutSep(s[1..], sep);
    }
  }

  lemma {:induction false} SplitAfterSep(f: string, t: string, sep: char)
    requires sep !in f
    ensures Split(f + [sep] + t, sep) == [f] + Split(t, sep)
  {
    if f == [] {
      assert f + [sep] + t == [sep] + t;
    } else {
      assert (f + [sep] + t)[1..] == f[1..] + [sep] + t;
      assert f[0] != sep && sep !in f[1..];
      SplitAfterSep(f[1..], t, sep);
      assert [f[0]] + f[1..] == f;
    }
  }

  /** Splitting a join of separator-free parts gives the parts back. */
  lemma {:induction false} SplitJoin(parts: seq<string>, sep: char)
    requires |parts| >= 1
    requires forall k :: 0 <= k < |parts| ==> sep !in parts[k]
    ensures Split(Join(parts, sep), sep) == parts
  {
    if |parts| == 1 {
      SplitWithoutSep(parts[0], sep);
    } else {
      SplitJoin(parts[1..], sep);
      SplitAfterSep(parts[0], Join(parts[1..], sep), sep);
      assert [parts[0]] + parts[1..] == parts;
    }
  }

  // -------------------------------------------------------------- replace

  /** Python's `str.replace(c, "")` for one character c. */
  function RemoveChar(s: string, c: char): (r: string)
    ensures c !in r
  {
    if s == [] then "" else (if s[0] == c then "" else [s[0]]) + RemoveChar(s[1..], c)
  }

  lemma {:induction false} RemoveAbsentChar(s: string, c: char)
    requires c !in s
    ensures RemoveChar(s, c) == s
  {
    if s != [] {
      assert c !in s[1..];
      RemoveAbsentChar(s[1..], c);
      assert [s[0]] + s[1..] == s;
    }
  }

  lemma {:induction false} RemoveCharAppend(a: string, b: string, c: char)
    ensures RemoveChar(a + b, c) == RemoveChar(a, c) + RemoveChar(b, c)
  {
    if a == [] {
      assert a + b == b;
    } else {
      assert (a + b)[1..] == a[1..] + b;
      RemoveCharAppend(a[1..], b, c);
    }
  }

  lemma NoDigitAppend(a: string, b: string)
    ensures NoDigit(a + b) <==> NoDigit(a) && NoDigit(b)
  {
    if NoDigit(a) && NoDigit(b) {
      forall k | 0 <= k < |a + b| ensures !IsDigit((a + b)[k]) {
        if k < |a| {
          assert (a + b)[k] == a[k];
        } else {
          assert (a + b)[k] == b[k - |a|];
        }
      }
    }
    if NoDigit(a + b) {
      forall k | 0 <= k < |b| ensures !IsDigit(b[k]) {
        assert (a + b)[|a| + k] == b[k];
      }
      forall k | 0 <= k < |a| ensures !IsDigit(a[k]) {
        assert (a + b)[k] == a[k];
      }
    }
  }

  /** Removing a non-digit character leaves the digits: the result has a
      digit exactly when the input has one. */
  lemma {:induction false} RemoveCharDigits(s: string, c: char)
    requires !IsDigit(c)
    ensures NoDigit(RemoveChar(s, c)) <==> NoDigit(s)
  {
    if s != [] {
      RemoveCharDigits(s[1..], c);
      var head := if s[0] == c then "" else [s[0]];
      assert RemoveChar(s, c) == head + RemoveChar(s[1..], c);
      NoDigitAppend(head, RemoveChar(s[1..], c));
      NoDigitAppend([s[0]], s[1..]);
      assert s == [s[0]] + s[1..];
    }
  }

  /** Python's `str.replace(c, d)` for characters c and d. */
  function ReplaceChar(s: string, c: char, d: char): (r: string)
    ensures |r| == |s|
  {
    if s == [] then "" else [if s[0] == c then d else s[0]] + ReplaceChar(s[1..], c, d)
  }

  lemma {:induction false} ReplaceAbsent(s: string, c: char, d: char)
    requires c !in s
    ensures ReplaceChar(s, c, d) == s
  {
    if s != [] {
      assert c !in s[1..];
      ReplaceAbsent(s[1..], c, d);
      assert [s[0]] + s[1..] == s;
    }
  }

  // --------------------------------------------------------------- search

  predicate StartsWith(s: string, p: string) { |p| <= |s| && s[..|p|] == p }

  /** Substring search: some suffix of s starts with sub. */
  predicate Contains(s: string, sub: string)
  {
    StartsWith(s, sub) || (s != [] && Contains(s[1..], sub))
  }

  lemma {:induction false} ContainsAt(s: string, sub: string, i: nat)
    requires i + |sub| <= |s| && s[i..i + |sub|] == sub
    ensures Contains(s, sub)
  {
    if i > 0 {
      assert s[1..][i - 1..i - 1 + |sub|] == sub;
      ContainsAt(s[1..], sub, i - 1);
    }
  }

  lemma {:induction false} ContainsChar(s: string, c: char)
    ensures Contains(s, [c]) <==> c in s
  {
    if s != [] {
      ContainsChar(s[1..], c);
      assert s == [s[0]] + s[1..];
    }
  }

  // ----------------------------------------------------------- to_int

  /** The longest prefix of s made of digits. */
  function LeadingDigits(s: string): (r: string)
    ensures AllDigits(r) && |r| <= |s| && r == s[..|r|]
    ensures |r| == |s| || !IsDigit(s[|r|])
  {
    if s != [] && IsDigit(s[0]) then [s[0]] + LeadingDigits(s[1..]) else ""
  }

  /** `int(re.search(r"\d+", text).group())`, or None when there is no match:
      the value of the first maximal run of digits. */
  function ToInt(text: string): (r: Option<nat>)
  {
    if text == [] then None
    else if IsDigit(text[0]) then Some(DigitsValue(LeadingDigits(text)))
    else ToInt(text[1..])
  }

  lemma {:induction false} ToIntNone(text: string)
    ensures ToInt(text).None? <==> NoDigit(text)
  {
    if text != [] && !IsDigit(text[0]) {
      ToIntNone(text[1..]);
      assert forall k :: 1 <= k < |text| ==> text[k] == text[1..][k - 1];
    }
  }

  /** Whenever text[i..j] is the first maximal digit run, ToInt gives its value. */
  lemma {:induction false} ToIntFirstRun(text: string, i: nat, j: nat)
    requires i < j <= |text|
    requires NoDigit(text[..i]) && AllDigits(text[i..j])
    requires j == |text| || !IsDigit(text[j])
    ensures ToInt(text) == Some(DigitsValue(text[i..j]))
  {
    if i == 0 {
      LeadingDigitsRun(text, j);
    } else {
      assert !IsDigit(text[..i][0]);
      assert text[1..][..i - 1] == text[1..i];
      assert text[1..][i - 1..j - 1] == text[i..j];
      ToIntFirstRun(text[1..], i - 1, j - 1);
    }
  }

  lemma LeadingDigitsAll(s: string)
    requires s != [] && AllDigits(s)
    ensures LeadingDigits(s) == s
  {
    assert s[..|s|] == s;
    LeadingDigitsRun(s, |s|);
  }

  lemma {:induction false} LeadingDigitsRun(s: string, j: nat)
    requires 0 < j <= |s| && AllDigits(s[..j])
    requires j == |s| || !IsDigit(s[j])
    ensures LeadingDigits(s) == s[..j]
  {
    assert IsDigit(s[..j][0]);
    if j > 1 {
      assert s[1..][..j - 1] == s[1..j];
      LeadingDigitsRun(s[1..], j - 1);
    } else if j < |s| {
      assert !IsDigit(s[1..][0]);
    }
  }

  /** `to_int("1,544")` stops at the comma. */
  lemma ToIntThousands()
    ensures ToInt("1,544") == Some(1)
  {
    ToIntFirstRun("1,544", 0, 1);
  }

  // -------------------------------------------------------- Python int()

  /** Python's int(s) applied to a string without `_`: optional surrounding
      whitespace, an optional sign, then at least one digit; otherwise None
      (the ValueError). */
  function PyInt(s: string): Option<int>
  {
    var t := Strip(s);
    if t == [] then None
    else if t[0] == '-' && |t| > 1 && AllDigits(t[1..]) then Some(-(DigitsValue(t[1..]) as int))
    else if t[0] == '+' && |t| > 1 && AllDigits(t[1..]) then Some(DigitsValue(t[1..]))
    else if AllDigits(t) then Some(DigitsValue(t))
    else None
  }

  /** A run of digits reads as its value. */
  lemma PyIntDigits(s: string)
    requires s != [] && AllDigits(s)
    ensures PyInt(s) == Some(DigitsValue(s))
  {
    StripNoSpace(s);
    EmptyUnits(s);
    PyIntStripped(s, "", s);
  }

  /** Surrounding whitespace is ignored and a sign applies to the digits after it. */
  lemma PyIntAround(pre: string, sign: string, ds: string, post: string)
    requires AllSpace(pre) && AllSpace(post)
    requires sign == "" || sign == "-" || sign == "+"
    requires ds != [] && AllDigits(ds)
    ensures PyInt(pre + sign + ds + post) == Some(if sign == "-" then -(DigitsValue(ds) as int) else DigitsValue(ds))
  {
    var t := sign + ds;
    assert t[0] == (if sign == "" then ds[0] else sign[0]);
    assert t[|t| - 1] == ds[|ds| - 1];
    ConcatAssoc(pre, sign, ds);
    StripAround(pre, t, post);
    PyIntStripped(pre + sign + ds + post, sign, ds);
  }

  lemma PyIntStripped(s: string, sign: string, ds: string)
    requires sign == "" || sign == "-" || sign == "+"
    requires ds != [] && AllDigits(ds)
    requires Strip(s) == sign + ds
    ensures PyInt(s) == Some(if sign == "-" then -(DigitsValue(ds) as int) else DigitsValue(ds))
  {
    var t := Strip(s);
    if sign == "" {
      assert t == ds;
      assert t[0] != '-' && t[0] != '+';
    } else {
      assert t[0] == sign[0];
      assert t[1..] == ds;
    }
  }

  /** Blank text is the ValueError. */
  lemma PyIntBlank(s: string)
    requires AllSpace(s)
    ensures PyInt(s) == None
  {
    StripShape(s);
  }

  /** A character other than a digit anywhere in the stripped text, except
      for one leading sign, is the ValueError. */
  lemma PyIntRejects(s: string, k: nat)
    requires k < |Strip(s)| && !IsDigit(Strip(s)[k])
    requires k > 0 || (Strip(s)[0] != '-' && Strip(s)[0] != '+')
    ensures PyInt(s) == None
  {
    var t := Strip(s);
    if k > 0 {
      assert t[1..][k - 1] == t[k];
    }
  }
}
