/** The per-cell parsers of the cleaning script: each takes one cell as read
    from the raw file and gives a typed value or "missing"; none of them ever
    fails the row. */
module Parsers {
  import opened Wrappers
  import opened Seqs
  import opened Strings

  /** One raw cell: empty in the file (NaN) or the text pandas read. */
  datatype Cell = Missing | Text(s: string)

  /** `astype(str)`: a missing cell becomes the text "nan". */
  function Stringify(c: Cell): string {
    match c
    case Missing => "nan"
    case Text(t) => t
  }

  predicate AllDigits(s: string) {
    forall i :: 0 <= i < |s| ==> IsDigit(s[i])
  }

  predicate NoDigit(s: string) {
    forall i :: 0 <= i < |s| ==> !IsDigit(s[i])
  }

  function DigitValue(c: char): nat
    requires IsDigit(c)
  {
    c as int - '0' as int
  }

  function DigitChar(d: nat): (c: char)
    requires d < 10
    ensures IsDigit(c) && DigitValue(c) == d
  {
    (48 + d) as char
  }

  /** The value of a string of decimal digits (leading zeros allowed; the
      empty string reads as 0). */
  function NatOfDigits(ds: string): nat
    requires AllDigits(ds)
    decreases |ds|
  {
    if ds == [] then 0 else 10 * NatOfDigits(ds[..|ds| - 1]) + DigitValue(ds[|ds| - 1])
  }

  /** The canonical decimal numeral of `n`: digits only, no leading zero. */
  function DigitsOfNat(n: nat): (ds: string)
    ensures ds != [] && AllDigits(ds)
    ensures |ds| > 1 ==> ds[0] != '0'
  {
    if n < 10 then [DigitChar(n)] else DigitsOfNat(n / 10) + [DigitChar(n % 10)]
  }

  /** Reading a printed number gives the number back. */
  lemma {:induction false} NatOfDigitsOfNat(n: nat)
    ensures NatOfDigits(DigitsOfNat(n)) == n
  {
    var ds := DigitsOfNat(n);
    if n < 10 {
      assert ds[..0] == [];
    } else {
      assert ds[..|ds| - 1] == DigitsOfNat(n / 10);
      NatOfDigitsOfNat(n / 10);
    }
  }

  // ---------------------------------------------------------------------------
  // Price: `str.replace(r"[^\d]", "")`, then "" becomes NA, then a number.
  // ---------------------------------------------------------------------------

  /** Every digit character of `s`, in order; everything else is deleted. */
  function DigitsOnly(s: string): (ds: string)
    ensures AllDigits(ds)
    ensures |ds| <= |s|
  {
    Filter(s, IsDigit)
  }

  /** The price parser: keep the digits, read them as an integer; a cell with
      no digit at all (the stringified "nan" included) is missing. */
  function ParsePrice(c: Cell): (r: Option<nat>)
    ensures r.None? <==> NoDigit(Stringify(c))
  {
    var s := Stringify(c);
    var ds := DigitsOnly(s);
    assert ds != [] ==> !NoDigit(s) by {
      if ds != [] {
        assert ds[0] in multiset(s);
        var i :| 0 <= i < |s| && s[i] == ds[0];
      }
    }
    if ds == [] then None else Some(NatOfDigits(ds))
  }

  lemma DigitsOnlyDecorated(pre: string, ds: string, post: string)
    requires NoDigit(pre) && AllDigits(ds) && NoDigit(post)
    ensures DigitsOnly(pre + ds + post) == ds
  {
    FilterAppend(pre + ds, post, IsDigit);
    FilterAppend(pre, ds, IsDigit);
    FilterNone(pre, IsDigit);
    FilterNone(post, IsDigit);
    FilterAll(ds, IsDigit);
  }

  /** A number printed with any digit-free decoration around it (a currency
      sign, a space, "BDT") parses back to that number. */
  lemma ParsePriceDecorated(pre: string, n: nat, post: string)
    requires NoDigit(pre) && NoDigit(post)
    ensures ParsePrice(Text(pre + DigitsOfNat(n) + post)) == Some(n)
  {
    var s := pre + DigitsOfNat(n) + post;
    DigitsOnlyDecorated(pre, DigitsOfNat(n), post);
    NatOfDigitsOfNat(n);
    assert Stringify(Text(s)) == s;
  }

  lemma DigitsOnlySkips(a: string, c: char, b: string)
    requires !IsDigit(c)
    ensures DigitsOnly(a + [c] + b) == DigitsOnly(a + b)
  {
    FilterSkips(a, c, b, IsDigit);
  }

  /** A non-digit character anywhere (a thousands comma, a decimal point) is
      simply dropped: the parser does not see separators at all. */
  lemma ParsePriceIgnoresNonDigit(a: string, c: char, b: string)
    requires !IsDigit(c)
    ensures ParsePrice(Text(a + [c] + b)) == ParsePrice(Text(a + b))
  {
    DigitsOnlySkips(a, c, b);
    assert Stringify(Text(a + [c] + b)) == a + [c] + b;
    assert Stringify(Text(a + b)) == a + b;
  }

  lemma {:induction false} NatOfDigitsAppend(a: string, b: string)
    requires AllDigits(a) && AllDigits(b)
    ensures NatOfDigits(a + b) == NatOfDigits(a) * Pow10(|b|) + NatOfDigits(b)
    decreases |b|
  {
    if b == [] {
      assert a + b == a;
    } else {
      var b' := b[..|b| - 1];
      var d := DigitValue(b[|b| - 1]);
      assert (a + b)[..|a + b| - 1] == a + b';
      assert NatOfDigits(a + b) == 10 * NatOfDigits(a + b') + d;
      assert NatOfDigits(b) == 10 * NatOfDigits(b') + d;
      NatOfDigitsAppend(a, b');
      ShiftDigit(NatOfDigits(a), Pow10(|b'|), NatOfDigits(b'), d);
    }
  }

  /** Appending a digit multiplies by ten and adds it. */
  lemma ShiftDigit(x: nat, p: nat, y: nat, d: nat)
    ensures 10 * (x * p + y) + d == x * (10 * p) + (10 * y + d)
  {
  }

  lemma ParsePriceOfDigits(s: string, ds: string)
    requires ds != [] && AllDigits(ds) && DigitsOnly(s) == ds
    ensures ParsePrice(Text(s)) == Some(NatOfDigits(ds))
  {
  }

  lemma DecimalDigits(pre: string, w: string, frac: string)
    requires NoDigit(pre) && AllDigits(w) && AllDigits(frac)
    ensures DigitsOnly(pre + w + "." + frac) == w + frac
  {
    var s := pre + w + "." + frac;
    assert s == (pre + w) + ['.'] + frac;
    DigitsOnlySkips(pre + w, '.', frac);
    assert (pre + w) + frac == pre + (w + frac) + "";
    DigitsOnlyDecorated(pre, w + frac, "");
  }

  /** A decimal point is dropped like any other non-digit: the fraction
      digits are appended to the whole part, so "1,234.50" reads as 123450
      and not as 1234. */
  lemma ParsePriceDecimalPoint(pre: string, w: string, frac: string)
    requires NoDigit(pre) && w != [] && AllDigits(w) && AllDigits(frac)
    ensures ParsePrice(Text(pre + w + "." + frac)).Some?
    ensures ParsePrice(Text(pre + w + "." + frac)).value == NatOfDigits(w) * Pow10(|frac|) + NatOfDigits(frac)
  {
    DecimalDigits(pre, w, frac);
    ParsePriceOfDigits(pre + w + "." + frac, w + frac);
    NatOfDigitsAppend(w, frac);
  }

  // ---------------------------------------------------------------------------
  // Review count: delete commas, strip, `to_numeric(errors="coerce")`.
  // ---------------------------------------------------------------------------

  predicate NotComma(c: char) {
    c != ','
  }

  function RemoveCommas(s: string): (r: string)
    ensures forall i :: 0 <= i < |r| ==> r[i] != ','
  {
    Filter(s, NotComma)
  }

  /** An integer numeral: an optional sign and at least one digit. */
  function ParseInteger(s: string): (r: Option<int>)
    ensures r.Some? ==> s != [] && (IsDigit(s[0]) || s[0] == '+' || s[0] == '-')
  {
    if s != [] && (s[0] == '+' || s[0] == '-') then
      var body := s[1..];
      if body != [] && AllDigits(body) then
        var v: int := NatOfDigits(body);
        Some(if s[0] == '-' then -v else v)
      else None
    else if s != [] && AllDigits(s) then Some(NatOfDigits(s))
    else None
  }

  /** The review-count parser: a count is read only from a cell that holds
      a digit. */
  function ParseCount(c: Cell): (r: Option<int>)
    ensures r.Some? ==> !NoDigit(Stringify(c))
  {
    var r := ParseInteger(Trim(RemoveCommas(Stringify(c))));
    if r.Some? then
      CountDigitFromCell(Stringify(c));
      r
    else r
  }

  /** The digit an integer numeral starts with (after its sign) comes from
      the cell: deleting commas and stripping only remove characters. */
  lemma CountDigitFromCell(s: string)
    requires ParseInteger(Trim(RemoveCommas(s))).Some?
    ensures !NoDigit(s)
  {
    var u := RemoveCommas(s);
    var v := TrimStart(u);
    var t := TrimEnd(v);
    var k := if IsDigit(t[0]) then 0 else 1;
    assert IsDigit(t[k]);
    assert t[k] == v[k];
    assert v[k] == u[|u| - |v| + k];
    FilterMember(s, NotComma, t[k]);
    var i :| 0 <= i < |s| && s[i] == t[k];
  }

  lemma RemoveCommasSkips(a: string, b: string)
    ensures RemoveCommas(a + "," + b) == RemoveCommas(a + b)
  {
    assert a + "," + b == a + [','] + b;
    FilterSkips(a, ',', b, NotComma);
  }

  /** Commas anywhere in the cell are ignored. */
  lemma ParseCountIgnoresCommas(a: string, b: string)
    ensures ParseCount(Text(a + "," + b)) == ParseCount(Text(a + b))
  {
    RemoveCommasSkips(a, b);
    assert Stringify(Text(a + "," + b)) == a + "," + b;
    assert Stringify(Text(a + b)) == a + b;
  }

  lemma ParseIntegerOfDigits(n: nat)
    ensures ParseInteger(DigitsOfNat(n)) == Some(n)
  {
    NatOfDigitsOfNat(n);
  }

  lemma RemoveCommasPadded(pre: string, ds: string, post: string)
    requires AllSpace(pre) && AllDigits(ds) && AllSpace(post)
    ensures Trim(RemoveCommas(pre + ds + post)) == ds
  {
    var s := pre + ds + post;
    assert forall i :: 0 <= i < |s| ==> NotComma(s[i]) by {
      forall i | 0 <= i < |s| ensures NotComma(s[i]) {
        if i < |pre| { assert s[i] == pre[i]; }
        else if i < |pre| + |ds| { assert s[i] == ds[i - |pre|]; }
        else { assert s[i] == post[i - |pre| - |ds|]; }
      }
    }
    FilterAll(s, NotComma);
    if ds != [] {
      assert !IsSpace(ds[0]) && !IsSpace(ds[|ds| - 1]);
    }
    TrimPadded(pre, ds, post);
  }

  /** A printed count parses back to itself. */
  lemma ParseCountOfNat(n: nat)
    ensures ParseCount(Text(DigitsOfNat(n))) == Some(n)
  {
    var ds := DigitsOfNat(n);
    assert [] + ds + [] == ds;
    RemoveCommasPadded([], ds, []);
    ParseIntegerOfDigits(n);
  }

  /** A plain count with whitespace around it parses to that count. */
  lemma ParseCountPadded(pre: string, n: nat, post: string)
    requires AllSpace(pre) && AllSpace(post)
    ensures ParseCount(Text(pre + DigitsOfNat(n) + post)) == Some(n)
  {
    var s := pre + DigitsOfNat(n) + post;
    RemoveCommasPadded(pre, DigitsOfNat(n), post);
    assert Stringify(Text(s)) == s;
    ParseIntegerOfDigits(n);
  }

  lemma NanHasNoComma(s: string)
    requires s == "nan"
    ensures RemoveCommas(s) == s
  {
    assert forall i :: 0 <= i < |s| ==> NotComma(s[i]);
    FilterAll(s, NotComma);
  }

  lemma NanIsTrimmed(s: string)
    requires s == "nan"
    ensures Trim(s) == s
  {
    assert [] + s + [] == s;
    TrimPadded([], s, []);
  }

  lemma NanHasNoDigit(s: string)
    requires s == "nan"
    ensures NoDigit(s)
  {
  }

  /** A missing cell is stringified to "nan", which has no digit: the price
      stays missing. */
  lemma MissingPriceStaysMissing()
    ensures ParsePrice(Missing) == None
  {
    NanHasNoDigit(Stringify(Missing));
  }

  /** "nan" is no integer numeral: a missing review count stays missing. */
  lemma MissingCountStaysMissing()
    ensures ParseCount(Missing) == None
  {
    var s := Stringify(Missing);
    NanHasNoComma(s);
    NanIsTrimmed(s);
    NanIsNoInteger(s);
  }

  lemma NanIsNoInteger(s: string)
    requires s == "nan"
    ensures ParseInteger(s) == None
  {
    assert !IsDigit(s[0]);
  }

  // ---------------------------------------------------------------------------
  // Rating: `pd.to_numeric(errors="coerce")` on a decimal numeral.
  // ---------------------------------------------------------------------------

  /** Length of the leading run of digits. */
  function LeadingDigits(s: string): (k: nat)
    ensures k <= |s| && AllDigits(s[..k])
    ensures k == |s| || !IsDigit(s[k])
  {
    if s != [] && IsDigit(s[0]) then 1 + LeadingDigits(s[1..]) else 0
  }

  lemma {:induction false} LeadingDigitsOf(ds: string, rest: string)
    requires AllDigits(ds)
    requires rest == [] || !IsDigit(rest[0])
    ensures LeadingDigits(ds + rest) == |ds|
  {
    if ds == [] {
      assert ds + rest == rest;
    } else {
      assert (ds + rest)[1..] == ds[1..] + rest;
      LeadingDigitsOf(ds[1..], rest);
    }
  }

  function Pow10(n: nat): (p: nat)
    ensures p >= 1
  {
    if n == 0 then 1 else 10 * Pow10(n - 1)
  }

  /** An unsigned decimal numeral: digits, optionally a point and more
      digits, with at least one digit in all ("8", "8.5", "8.", ".5"). */
  function ParseUnsignedDecimal(s: string): (r: Option<real>)
    ensures r.Some? ==> s != [] && r.value >= 0.0
  {
    var k := LeadingDigits(s);
    if k == |s| then
      if k > 0 then Some(NatOfDigits(s) as real) else None
    else if s[k] == '.' && AllDigits(s[k + 1..]) && (k > 0 || k + 1 < |s|) then
      Some(NatOfDigits(s[..k]) as real + NatOfDigits(s[k + 1..]) as real / Pow10(|s| - k - 1) as real)
    else None
  }

  /** A signed decimal numeral. */
  function ParseDecimal(s: string): Option<real> {
    if s != [] && (s[0] == '+' || s[0] == '-') then
      match ParseUnsignedDecimal(s[1..])
      case None => None
      case Some(v) => Some(if s[0] == '-' then -v else v)
    else ParseUnsignedDecimal(s)
  }

  /** The C-locale `isspace` set that the numeric coercions skip on either
      side of a numeral: SPACE, TAB, LF, VT, FF and CR. */
  predicate IsAsciiSpace(c: char) {
    c == ' ' || '\t' <= c <= '\r'
  }

  predicate AllAsciiSpace(s: string) {
    forall i :: 0 <= i < |s| ==> IsAsciiSpace(s[i])
  }

  /** The suffix left after the leading ASCII whitespace. */
  function SkipLeading(s: string): (r: string)
    ensures |r| <= |s| && r == s[|s| - |r|..]
    ensures r == [] || !IsAsciiSpace(r[0])
  {
    if s != [] && IsAsciiSpace(s[0]) then SkipLeading(s[1..]) else s
  }

  /** The prefix left before the trailing ASCII whitespace. */
  function SkipTrailing(s: string): (r: string)
    ensures |r| <= |s| && r == s[..|r|]
    ensures r == [] || !IsAsciiSpace(r[|r| - 1])
  {
    if s != [] && IsAsciiSpace(s[|s| - 1]) then
      var r := SkipTrailing(s[..|s| - 1]);
      assert s[..|s| - 1][..|r|] == s[..|r|];
      r
    else s
  }

  /** Numeric coercion of a cell: a missing cell stays missing, the
      whitespace around a numeral is skipped, and text that is not a
      numeral becomes missing. */
  function ParseNumber(c: Cell): (r: Option<real>)
    ensures c.Missing? ==> r.None?
  {
    match c
    case Missing => None
    case Text(s) => ParseDecimal(SkipTrailing(SkipLeading(s)))
  }

  /** A cell with no whitespace at either end coerces as its numeral. */
  lemma ParseNumberUnpadded(s: string)
    requires s != [] && !IsAsciiSpace(s[0]) && !IsAsciiSpace(s[|s| - 1])
    ensures ParseNumber(Text(s)) == ParseDecimal(s)
  {
    assert SkipLeading(s) == s;
    assert SkipTrailing(s) == s;
  }

  lemma {:induction false} SkipLeadingPadded(pre: string, x: string)
    requires AllAsciiSpace(pre)
    ensures SkipLeading(pre + x) == SkipLeading(x)
  {
    if pre == [] {
      assert pre + x == x;
    } else {
      assert (pre + x)[1..] == pre[1..] + x;
      SkipLeadingPadded(pre[1..], x);
    }
  }

  lemma {:induction false} SkipLeadingAppend(s: string, post: string)
    ensures SkipLeading(s + post) == if SkipLeading(s) == [] then SkipLeading(post) else SkipLeading(s) + post
  {
    if s == [] {
      assert s + post == post;
    } else if IsAsciiSpace(s[0]) {
      assert (s + post)[1..] == s[1..] + post;
      SkipLeadingAppend(s[1..], post);
    } else {
      assert (s + post)[0] == s[0];
    }
  }

  lemma {:induction false} SkipTrailingPadded(x: string, post: string)
    requires AllAsciiSpace(post)
    ensures SkipTrailing(x + post) == SkipTrailing(x)
  {
    if post == [] {
      assert x + post == x;
    } else {
      var init := post[..|post| - 1];
      assert (x + post)[|x + post| - 1] == post[|post| - 1];
      assert (x + post)[..|x + post| - 1] == x + init;
      SkipTrailingPadded(x, init);
    }
  }

  /** Whitespace on either side of a cell does not change what it coerces
      to: " 8.5", "8.5 " and "8.5" read alike. */
  lemma ParseNumberPadded(pre: string, s: string, post: string)
    requires AllAsciiSpace(pre) && AllAsciiSpace(post)
    ensures ParseNumber(Text(pre + s + post)) == ParseNumber(Text(s))
  {
    assert pre + s + post == pre + (s + post);
    SkipLeadingPadded(pre, s + post);
    SkipLeadingAppend(s, post);
    if SkipLeading(s) == [] {
      SkipLeadingPadded(post, []);
      assert post + [] == post;
    } else {
      SkipTrailingPadded(SkipLeading(s), post);
    }
  }

  /** The two numeric parsers agree on integer numerals. */
  lemma IntegerIsDecimal(s: string)
    requires ParseInteger(s).Some?
    ensures ParseDecimal(s) == Some(ParseInteger(s).value as real)
  {
    if s[0] == '+' || s[0] == '-' {
      LeadingDigitsOf(s[1..], []);
      assert s[1..] + [] == s[1..];
    } else {
      LeadingDigitsOf(s, []);
      assert s + [] == s;
    }
  }

  /** A rating written with one decimal ("8.5") reads as that exact value. */
  lemma ParseOneDecimal(n: nat, d: nat)
    requires d < 10
    ensures ParseNumber(Text(DigitsOfNat(n) + "." + [DigitChar(d)])) == Some(n as real + d as real / 10.0)
  {
    var ds := DigitsOfNat(n);
    var s := ds + "." + [DigitChar(d)];
    var k := |ds|;
    assert s == ds + ("." + [DigitChar(d)]);
    LeadingDigitsOf(ds, "." + [DigitChar(d)]);
    assert LeadingDigits(s) == k;
    assert s[k] == '.';
    assert s[..k] == ds;
    assert s[k + 1..] == [DigitChar(d)];
    assert NatOfDigits([DigitChar(d)]) == d by {
      assert [DigitChar(d)][..0] == [];
    }
    assert Pow10(|s| - k - 1) == 10 by {
      assert |s| - k - 1 == 1;
    }
    NatOfDigitsOfNat(n);
    assert ParseUnsignedDecimal(s) == Some(n as real + d as real / 10.0);
    assert s[0] == ds[0];
    ParseNumberUnpadded(s);
  }

  // ---------------------------------------------------------------------------
  // Hotel names from the review site: `str.replace(r"^\d+\.\s*", "")`, then strip.
  // ---------------------------------------------------------------------------

  /** The text starts with one or more digits followed by a full stop. */
  predicate HasOrdinalPrefix(s: string) {
    var k := LeadingDigits(s);
    0 < k < |s| && s[k] == '.'
  }

  /** The anchored regex replacement: it removes at most one "digits, point,
      whitespace" run, and only at position 0. Because `\d+` can only stop
      where a non-digit starts, the match, when there is one, ends after the
      whitespace that follows the first point. */
  function StripOrdinalPrefix(s: string): (r: string)
    ensures |r| <= |s| && r == s[|s| - |r|..]
    ensures r != s <==> HasOrdinalPrefix(s)
  {
    if HasOrdinalPrefix(s) then TrimStart(s[LeadingDigits(s) + 1..]) else s
  }

  lemma HasOrdinalPrefixOf(ds: string, tail: string)
    requires ds != [] && AllDigits(ds)
    ensures var s := ds + "." + tail;
            HasOrdinalPrefix(s) && LeadingDigits(s) == |ds| && s[|ds| + 1..] == tail
  {
    var s := ds + "." + tail;
    assert s == ds + ("." + tail);
    LeadingDigitsOf(ds, "." + tail);
  }

  /** What the replacement removes is exactly one numbering prefix. */
  lemma OrdinalPrefixRemoved(ds: string, ws: string, rest: string)
    requires ds != [] && AllDigits(ds) && AllSpace(ws)
    requires rest == [] || !IsSpace(rest[0])
    ensures StripOrdinalPrefix(ds + "." + ws + rest) == rest
  {
    var t := ws + rest;
    var s := ds + "." + t;
    assert ds + "." + ws + rest == s;
    HasOrdinalPrefixOf(ds, t);
    assert s[LeadingDigits(s) + 1..] == t;
    TrimStartPadded(ws, rest);
    assert StripOrdinalPrefix(s) == TrimStart(t);
  }

  /** The review-site name cleaner: prefix strip first, then strip; a missing
      name stays missing. */
  function CleanTripName(c: Cell): (r: Option<string>)
    ensures c.Missing? <==> r.None?
    ensures r.Some? ==> IsTrimmed(r.value)
  {
    match c
    case Missing => None
    case Text(s) => Some(Trim(StripOrdinalPrefix(s)))
  }

  /** The prefix pattern is anchored at the very start and the strip comes
      after it, so a name with whitespace in front keeps its numbering. */
  lemma PaddedNameKeepsOrdinal(pre: string, name: string, post: string)
    requires pre != [] && AllSpace(pre) && AllSpace(post) && IsTrimmed(name)
    ensures CleanTripName(Text(pre + name + post)) == Some(name)
  {
    var s := pre + name + post;
    assert s[0] == pre[0];
    assert !IsDigit(s[0]);
    assert LeadingDigits(s) == 0;
    assert StripOrdinalPrefix(s) == s;
    TrimPadded(pre, name, post);
  }

  /** Cleaning a cleaned name again changes it exactly when the cleaned name
      itself starts with digits and a point ("1. 2. X" gives "2. X", and then
      "X"); otherwise the cleaner is idempotent. */
  lemma CleanTripNameAgain(s: string)
    ensures var t := Trim(StripOrdinalPrefix(s));
            Trim(StripOrdinalPrefix(t)) != t <==> HasOrdinalPrefix(t)
  {
    var t := Trim(StripOrdinalPrefix(s));
    if !HasOrdinalPrefix(t) {
      assert [] + t + [] == t;
      TrimPadded([], t, []);
    }
  }
}
