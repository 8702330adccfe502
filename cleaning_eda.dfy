/** `clean_numeric_column` of 4.Further_clean_and_EDA/cleaning_eda.py: one
    named column of a copied frame is mapped through `convert`, which drops
    commas and reads the first match of `\d+\.?\d*` as a number. */
module CleaningEda {
  import opened Text
  import opened Decimal
  import opened Frames

  /** The number matched by `\d+\.?\d*` at the start of s, which begins with
      a digit: the digit run, and when a "." follows it, the "." and the
      digit run after it. */
  function NumberAt(s: string): (d: Dec)
    requires s != [] && IsDigit(s[0])
  {
    var ip := LeadingDigits(s);
    var rest := s[|ip|..];
    if rest != [] && rest[0] == '.' then
      var fp := LeadingDigits(rest[1..]);
      DigitsValueConcat(ip, fp);
      Dec(DigitsValue(ip + fp), |fp|)
    else Dec(DigitsValue(ip), 0)
  }

  /** `re.search(r"(\d+\.?\d*)", s)` read by `float`: the leftmost match,
      which starts at the first digit, or None (no match). */
  function FirstNumber(s: string): (r: Option<Dec>)
  {
    if s == [] then None
    else if IsDigit(s[0]) then Some(NumberAt(s))
    else FirstNumber(s[1..])
  }

  /** `convert(val)`: missing stays missing; otherwise `str(val)` without
      commas and stripped, then its first number, or missing with no match. */
  function Convert(val: Cell): Cell
  {
    if val == NA then NA
    else
      match FirstNumber(Scrubbed(CellText(val)))
      case None => NA
      case Some(d) => Num(d)
  }

  /** `str(val).replace(",", "").strip()`. */
  function Scrubbed(text: string): string
  {
    Strip(RemoveChar(text, ','))
  }

  // ------------------------------------------------------------ lemmas

  /** Text without commas or whitespace is left as it is. */
  lemma ScrubbedPlain(t: string)
    requires forall k :: 0 <= k < |t| ==> t[k] != ',' && !IsSpace(t[k])
    ensures Scrubbed(t) == t
  {
    assert ',' !in t by {
      forall k | 0 <= k < |t| ensures t[k] != ',' {
      }
    }
    RemoveAbsentChar(t, ',');
    StripNoSpace(t);
  }

  lemma {:induction false} FirstNumberNone(s: string)
    ensures FirstNumber(s).None? <==> NoDigit(s)
  {
    if s != [] && !IsDigit(s[0]) {
      FirstNumberNone(s[1..]);
      assert forall k :: 1 <= k < |s| ==> s[k] == s[1..][k - 1];
    }
  }

  /** A value becomes missing exactly when it was missing or its text has
      no digit at all; otherwise a number always comes out and nothing
      raises. */
  lemma ConvertMissing(val: Cell)
    ensures Convert(val) == NA <==> val == NA || NoDigit(CellText(val))
    ensures Convert(val) != NA ==> Convert(val).Num?
  {
    var t := CellText(val);
    RemoveCharDigits(t, ',');
    StripDigits(RemoveChar(t, ','));
    FirstNumberNone(Scrubbed(t));
  }

  lemma DigitsKept(s: string)
    requires AllDigits(s)
    ensures RemoveChar(s, ',') == s && Strip(s) == s
  {
    assert ',' !in s by {
      forall k | 0 <= k < |s| ensures s[k] != ',' {
        assert IsDigit(s[k]);
      }
    }
    RemoveAbsentChar(s, ',');
    forall k | 0 <= k < |s| ensures !IsSpace(s[k]) {
      assert IsDigit(s[k]);
    }
    StripNoSpace(s);
  }

  lemma RemoveSeparator(a: string, b: string, c: char)
    requires RemoveChar(a, c) == a && RemoveChar(b, c) == b
    ensures RemoveChar(a + [c] + b, c) == a + b
  {
    RemoveCharAppend(a + [c], b, c);
    RemoveCharAppend(a, [c], c);
    assert [c][1..] == [];
    assert RemoveChar([c], c) == [];
    assert a + [] == a;
  }

  lemma NumberAtDigits(s: string)
    requires s != [] && AllDigits(s)
    ensures NumberAt(s) == Dec(DigitsValue(s), 0)
  {
    assert s[..|s|] == s;
    LeadingDigitsRun(s, |s|);
  }

  lemma FirstNumberDigits(s: string)
    requires s != [] && AllDigits(s)
    ensures FirstNumber(s) == Some(Dec(DigitsValue(s), 0))
  {
    NumberAtDigits(s);
  }

  /** Thousands separators are removed first: "1,544" reads as 1544. */
  lemma ConvertThousands(a: string, b: string)
    requires a != [] && AllDigits(a) && AllDigits(b)
    ensures Convert(Str(a + "," + b)) == Num(Dec(DigitsValue(a + b), 0))
  {
    assert AllDigits(a + b) by {
      DigitsValueConcat(a, b);
    }
    assert Scrubbed(a + "," + b) == a + b by {
      DigitsKept(a);
      DigitsKept(b);
      RemoveSeparator(a, b, ',');
      DigitsKept(a + b);
    }
    FirstNumberDigits(a + b);
  }

  /** A leading "." is not part of the match: ".362" reads as 362. */
  lemma ConvertLeadingPoint(fp: string)
    requires fp != [] && AllDigits(fp)
    ensures Convert(Str("." + fp)) == Num(Dec(DigitsValue(fp), 0))
  {
    SkipNonDigit('.', fp);
  }

  /** A leading character that is neither a digit, a comma nor whitespace is
      skipped by the search: "-5" reads as 5 and ".362" as 362. */
  lemma SkipNonDigit(c: char, ds: string)
    requires c != ',' && !IsSpace(c) && !IsDigit(c)
    requires ds != [] && AllDigits(ds)
    ensures Convert(Str([c] + ds)) == Num(Dec(DigitsValue(ds), 0))
  {
    var s := [c] + ds;
    assert Scrubbed(s) == s by {
      forall k | 0 <= k < |s| ensures s[k] != ',' && !IsSpace(s[k]) {
        if k > 0 {
          assert s[k] == ds[k - 1];
        }
      }
      ScrubbedPlain(s);
    }
    assert FirstNumber(s) == Some(Dec(DigitsValue(ds), 0)) by {
      assert s[1..] == ds;
      NumberAtDigits(ds);
    }
  }

  /** On text that parses whole as an unsigned number the first match is
      that number. */
  lemma FirstNumberOfParsed(s: string)
    requires s != [] && IsDigit(s[0]) && ParseUnsigned(s).Some?
    ensures FirstNumber(s) == Some(Dec(ParseUnsigned(s).value.0, ParseUnsigned(s).value.1))
  {
  }

  /** Converting a converted value changes nothing. */
  lemma ConvertIdempotent(val: Cell)
    ensures Convert(Convert(val)) == Convert(val)
  {
    var c := Convert(val);
    if c.Num? {
      FirstNumberNonNegative(Scrubbed(CellText(val)));
      RenderReads(c.d);
    }
  }

  /** A non-negative number's rendering reads back as that number. */
  lemma RenderReads(d: Dec)
    requires d.mantissa >= 0
    ensures Convert(Num(d)) == Num(d)
  {
    var t := Render(d);
    assert Scrubbed(t) == t by {
      RenderChars(d);
      forall k | 0 <= k < |t| ensures t[k] != ',' && !IsSpace(t[k]) {
      }
      ScrubbedPlain(t);
    }
    assert FirstNumber(t) == Some(d) by {
      RenderUnsigned(d);
      FirstNumberOfParsed(t);
    }
  }

  /** The match never carries a sign. */
  lemma {:induction false} FirstNumberNonNegative(s: string)
    ensures FirstNumber(s).Some? ==> FirstNumber(s).value.mantissa >= 0
  {
    if s != [] && !IsDigit(s[0]) {
      FirstNumberNonNegative(s[1..]);
    }
  }

  /** A non-negative number renders without a sign, starting with a digit,
      and its rendering parses as an unsigned number. */
  lemma RenderUnsigned(d: Dec)
    requires d.mantissa >= 0
    ensures Render(d) != [] && IsDigit(Render(d)[0])
    ensures ParseUnsigned(Render(d)) == Some((d.mantissa as nat, d.scale))
  {
    var a := Abs(d.mantissa);
    var p := Pow10(d.scale);
    DivMod(a, p);
    var q, r := a / p, a % p;
    ParseRender(d);
    assert Sign(d) == "";
    assert Render(d)[0] == NatDigits(q)[0];
  }

  /** The integer part of convert's number is what `to_int` reads from the
      same text: both start at the first digit run. */
  lemma {:induction false} FirstNumberIntegerPart(s: string)
    ensures FirstNumber(s).Some? <==> ToInt(s).Some?
    ensures FirstNumber(s).Some? ==>
      FirstNumber(s).value.mantissa / Pow10(FirstNumber(s).value.scale) == ToInt(s).value
  {
    if s != [] {
      if IsDigit(s[0]) {
        NumberAtIntegerPart(s);
      } else {
        FirstNumberIntegerPart(s[1..]);
      }
    }
  }

  lemma NumberAtIntegerPart(s: string)
    requires s != [] && IsDigit(s[0])
    ensures NumberAt(s).mantissa / Pow10(NumberAt(s).scale) == DigitsValue(LeadingDigits(s))
  {
    var d := NumberAt(s);
    var ip := LeadingDigits(s);
    var rest := s[|ip|..];
    if rest != [] && rest[0] == '.' {
      var fp := LeadingDigits(rest[1..]);
      NumberAtFraction(s, ip, fp);
      ScaledIntegerPart(d.mantissa, DigitsValue(ip), fp, d.scale);
    } else {
      assert d == Dec(DigitsValue(ip), 0);
    }
  }

  lemma NumberAtFraction(s: string, ip: string, fp: string)
    requires s != [] && IsDigit(s[0])
    requires ip == LeadingDigits(s) && |ip| < |s| && s[|ip|] == '.'
    requires fp == LeadingDigits(s[|ip| + 1..])
    ensures AllDigits(ip + fp)
    ensures NumberAt(s).scale == |fp|
    ensures NumberAt(s).mantissa == DigitsValue(ip) * Pow10(|fp|) + DigitsValue(fp)
  {
    var rest := s[|ip|..];
    assert rest[0] == '.' && rest[1..] == s[|ip| + 1..];
    DigitsValueConcat(ip, fp);
  }

  lemma ScaledIntegerPart(m: nat, a: nat, fp: string, k: nat)
    requires AllDigits(fp) && k == |fp|
    requires m == a * Pow10(k) + DigitsValue(fp)
    ensures m / Pow10(k) == a
  {
    DigitsValueBound(fp);
    DivExact(a, DigitsValue(fp), Pow10(k));
  }

  lemma {:induction false} DigitsValueBound(s: string)
    requires AllDigits(s)
    ensures DigitsValue(s) < Pow10(|s|)
  {
    if s != [] {
      DigitsValueBound(s[..|s| - 1]);
    }
  }

  lemma DivExact(a: nat, b: nat, p: nat)
    requires b < p
    ensures (a * p + b) / p == a
  {
    DivMod(a * p + b, p);
    var q := (a * p + b) / p;
    if q < a {
      assert q * p + p <= a * p by {
        MulMono(q + 1, a, p);
      }
    } else if q > a {
      assert (a + 1) * p <= q * p by {
        MulMono(a + 1, q, p);
      }
    }
  }

  lemma MulMono(x: nat, y: nat, p: nat)
    requires x <= y
    ensures x * p <= y * p
  {
  }

  // ------------------------------------------------------------ the column

  datatype ColumnError = MissingColumn | AmbiguousColumn

  /** `clean_numeric_column(df, col="#")`: a copy of df whose column `col` holds
      `convert` of each of its cells and is numeric from then on. A missing
      column is the KeyError of `df_copy[col]`; a name carried by several
      columns selects a frame, and `convert` fails on it, which the model
      reports as AmbiguousColumn. */
  function CleanNumericColumn(df: Frame, col: string := "#"): (r: Result<Frame, ColumnError>)
    requires WellFormed(df)
    ensures r.Ok? <==> Count(df.columns, col) == 1
    ensures r == Err(MissingColumn) <==> Count(df.columns, col) == 0
    ensures r.Ok? ==> WellFormed(r.value) && |r.value.columns| == |df.columns| && |r.value.rows| == |df.rows|
    ensures r.Ok? ==> forall k :: 0 <= k < |df.columns| ==>
      r.value.columns[k] == (if df.columns[k].name == col then Column(col, false) else df.columns[k])
    ensures r.Ok? ==> forall i, k :: 0 <= i < |df.rows| && 0 <= k < |df.columns| ==>
      r.value.rows[i][k] == (if df.columns[k].name == col then Convert(df.rows[i][k]) else df.rows[i][k])
  {
    match UniqueIndex(df.columns, col)
    case None =>
      if Count(df.columns, col) == 0 then Err(MissingColumn) else Err(AmbiguousColumn)
    case Some(j) =>
      Ok(Frame(df.columns[j := Column(col, false)],
               seq(|df.rows|, i requires 0 <= i < |df.rows| => df.rows[i][j := Convert(df.rows[i][j])])))
  }
}
