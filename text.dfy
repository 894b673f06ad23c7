/** The string operations the crawlers and the analog editor apply to scraped
    text: Python's str.strip, str.replace, str.capitalize, str.split(' ', 1)
    and float(), with ASCII character classes in place of Python's Unicode
    tables. */
module Text {
  import opened Wrappers

  const NoBreakSpace: char := '\U{A0}'
  const Euro: char := '\U{20AC}'

  /** str.isspace for the characters scraped price and title text contains:
      the ASCII whitespace characters, NEL and the no-break space. */
  predicate IsSpace(c: char) {
    c == ' ' || c == '\t' || c == '\n' || c == '\r' || c == '\U{B}' || c == '\U{C}'
    || ('\U{1C}' <= c <= '\U{1F}') || c == '\U{85}' || c == NoBreakSpace
  }

  predicate IsUpper(c: char) { 'A' <= c <= 'Z' }
  predicate IsLower(c: char) { 'a' <= c <= 'z' }
  predicate IsDigit(c: char) { '0' <= c <= '9' }

  function StripLeft(s: string): (r: string)
    ensures |r| <= |s| && r == s[|s| - |r|..]
    ensures r == [] || !IsSpace(r[0])
    ensures forall i :: 0 <= i < |s| - |r| ==> IsSpace(s[i])
  {
    if s != [] && IsSpace(s[0]) then StripLeft(s[1..]) else s
  }

  function StripRight(s: string): (r: string)
    ensures |r| <= |s| && r == s[..|r|]
    ensures r == [] || !IsSpace(r[|r| - 1])
    ensures forall i :: |r| <= i < |s| ==> IsSpace(s[i])
  {
    if s != [] && IsSpace(s[|s| - 1]) then StripRight(s[..|s| - 1]) else s
  }

  /** `r` is `s[i..]` cut short, and everything cut off on either side is
      whitespace. */
  predicate StrippedAt(s: string, r: string, i: int) {
    0 <= i <= |s| - |r| && r == s[i..i + |r|]
    && (forall k :: 0 <= k < i ==> IsSpace(s[k]))
    && (forall k :: i + |r| <= k < |s| ==> IsSpace(s[k]))
  }

  /** str.strip(): the longest slice of `s` that neither starts nor ends with
      whitespace, everything cut off being whitespace. */
  function Strip(s: string): (r: string)
    ensures exists i :: StrippedAt(s, r, i)
    ensures r == [] || (!IsSpace(r[0]) && !IsSpace(r[|r| - 1]))
  {
    var l := StripLeft(s);
    var r := StripRight(l);
    var i := |s| - |l|;
    assert StrippedAt(s, r, i);
    r
  }

  /** str.replace(pat, rep): every non-overlapping occurrence of `pat`, scanning
      left to right, replaced by `rep`. */
  function ReplaceAll(s: string, pat: string, rep: string): string
    requires pat != []
    decreases |s|
  {
    if |s| < |pat| then s
    else if s[..|pat|] == pat then rep + ReplaceAll(s[|pat|..], pat, rep)
    else [s[0]] + ReplaceAll(s[1..], pat, rep)
  }

  /** Every character of a replacement's result comes from the input or from
      the replacement text. */
  lemma {:induction false} ReplaceAllChars(s: string, pat: string, rep: string)
    requires pat != []
    ensures forall c :: c in ReplaceAll(s, pat, rep) ==> c in s || c in rep
    decreases |s|
  {
    if |s| < |pat| {
    } else if s[..|pat|] == pat {
      ReplaceAllChars(s[|pat|..], pat, rep);
      forall c | c in ReplaceAll(s, pat, rep) ensures c in s || c in rep {
        if c !in rep {
          assert c in ReplaceAll(s[|pat|..], pat, rep);
          assert c in s[|pat|..];
        }
      }
    } else {
      ReplaceAllChars(s[1..], pat, rep);
      forall c | c in ReplaceAll(s, pat, rep) ensures c in s || c in rep {
        if c != s[0] {
          assert c in ReplaceAll(s[1..], pat, rep);
        }
      }
    }
  }

  /** Replacing a single character by text without it removes it entirely. */
  lemma {:induction false} ReplaceCharRemoves(s: string, c: char, rep: string)
    requires c !in rep
    ensures c !in ReplaceAll(s, [c], rep)
    decreases |s|
  {
    if |s| >= 1 {
      ReplaceCharRemoves(s[1..], c, rep);
      assert s[1..] == s[|[c]|..];
    }
  }

  /** The normalisation every crawler applies to a price text: strip, decimal
      comma to point, then delete "&nbsp;", the no-break space and the euro
      sign, in that order. */
  function CleanPrice(s: string): string {
    ReplaceAll(ReplaceAll(ReplaceAll(ReplaceAll(Strip(s), ",", "."), "&nbsp;", ""), [NoBreakSpace], ""), [Euro], "")
  }

  /** A cleaned price holds no comma, no no-break space and no euro sign, and
      every character it holds was in the stripped input or is the decimal
      point that replaced a comma. */
  lemma CleanPriceSeparatorsGone(s: string)
    ensures ',' !in CleanPrice(s) && NoBreakSpace !in CleanPrice(s) && Euro !in CleanPrice(s)
    ensures forall c :: c in CleanPrice(s) ==> c == '.' || c in Strip(s)
  {
    var s0 := Strip(s);
    var s1 := ReplaceAll(s0, ",", ".");
    var s2 := ReplaceAll(s1, "&nbsp;", "");
    var s3 := ReplaceAll(s2, [NoBreakSpace], "");
    var s4 := ReplaceAll(s3, [Euro], "");
    ReplaceCharRemoves(s0, ',', ".");
    ReplaceAllChars(s0, ",", ".");
    ReplaceAllChars(s1, "&nbsp;", "");
    ReplaceAllChars(s2, [NoBreakSpace], "");
    ReplaceAllChars(s3, [Euro], "");
    ReplaceCharRemoves(s2, NoBreakSpace, "");
    ReplaceCharRemoves(s3, Euro, "");
  }

  function ToUpper(c: char): (u: char)
    ensures IsLower(c) ==> IsUpper(u) && u as int == c as int - 32
    ensures !IsLower(c) ==> u == c
  {
    if IsLower(c) then (c as int - 32) as char else c
  }

  function ToLower(c: char): (l: char)
    ensures IsUpper(c) ==> IsLower(l) && l as int == c as int + 32
    ensures !IsUpper(c) ==> l == c
  {
    if IsUpper(c) then (c as int + 32) as char else c
  }

  function LowerAll(s: string): (r: string)
    ensures |r| == |s| && forall i :: 0 <= i < |s| ==> r[i] == ToLower(s[i])
  {
    if s == [] then [] else [ToLower(s[0])] + LowerAll(s[1..])
  }

  /** str.capitalize(): first character upper-cased, the rest lower-cased. */
  function Capitalize(s: string): (r: string)
    ensures |r| == |s|
    ensures s != [] ==> r[0] == ToUpper(s[0])
    ensures forall i :: 0 < i < |s| ==> r[i] == ToLower(s[i]) && !IsUpper(r[i])
  {
    if s == [] then [] else [ToUpper(s[0])] + LowerAll(s[1..])
  }

  /** str.split(' ', 1)[1]: the text after the first space; Python raises
      IndexError when there is no space, modelled as None. */
  function AfterFirstSpace(s: string): (r: Option<string>)
    ensures r.None? <==> ' ' !in s
    ensures r.Some? ==> exists i :: 0 <= i < |s| && s[i] == ' ' && ' ' !in s[..i] && r.value == s[i + 1..]
  {
    if s == [] then None
    else if s[0] == ' ' then (assert s[..0] == []; Some(s[1..]))
    else
      var r := AfterFirstSpace(s[1..]);
      if r.Some? then
        var i :| 0 <= i < |s[1..]| && s[1..][i] == ' ' && ' ' !in s[1..][..i] && r.value == s[1..][i + 1..];
        assert s[..i + 1] == [s[0]] + s[1..][..i];
        r
      else r
  }

  /** Splitting "prefix name" at the first space gives back `name` whenever the
      prefix has no space: the round trip between a display name and the
      product name it shows. */
  lemma {:induction false} AfterFirstSpaceOfJoin(prefix: string, name: string)
    requires ' ' !in prefix
    ensures AfterFirstSpace(prefix + " " + name) == Some(name)
  {
    if prefix == [] {
      assert prefix + " " + name == [' '] + name;
    } else {
      assert (prefix + " " + name)[1..] == prefix[1..] + " " + name;
      AfterFirstSpaceOfJoin(prefix[1..], name);
    }
  }

  function Pow10(n: nat): (p: nat)
    ensures p >= 1
  {
    if n == 0 then 1 else 10 * Pow10(n - 1)
  }

  predicate AllDigits(s: string) {
    forall i :: 0 <= i < |s| ==> IsDigit(s[i])
  }

  function DigitsValue(s: string): (v: nat)
    requires AllDigits(s)
    ensures v < Pow10(|s|)
  {
    if s == [] then 0
    else DigitsValue(s[..|s| - 1]) * 10 + (s[|s| - 1] as int - '0' as int)
  }

  /** Drops one leading sign character, as float() accepts one. */
  function Unsigned(t: string): string {
    if t != [] && (t[0] == '+' || t[0] == '-') then t[1..] else t
  }

  /** `body` is digits, then (when `i` is not its end) a point at `i` followed
      by digits, with at least one digit in all. */
  predicate DecimalAt(body: string, i: int) {
    0 <= i <= |body| && AllDigits(body[..i])
    && (i == |body| || (body[i] == '.' && AllDigits(body[i + 1..])))
    && |body| > (if i == |body| then 0 else 1)
  }

  /** The text of a decimal number float() accepts, in the ASCII subset used
      here: an optional sign, digits, and optionally a point and more digits. */
  predicate IsDecimal(t: string) {
    exists i | 0 <= i <= |Unsigned(t)| :: DecimalAt(Unsigned(t), i)
  }

  function IndexOfDot(s: string): (r: Option<nat>)
    ensures r.None? ==> '.' !in s
    ensures r.Some? ==> r.value < |s| && s[r.value] == '.' && '.' !in s[..r.value]
  {
    if s == [] then None
    else if s[0] == '.' then Some(0)
    else
      var r := IndexOfDot(s[1..]);
      if r.Some? then (assert s[..r.value + 1] == [s[0]] + s[1..][..r.value]; Some(r.value + 1)) else None
  }

  function UnsignedValue(body: string): (r: Option<real>)
    ensures r.Some? ==> r.value >= 0.0
  {
    match IndexOfDot(body)
    case None =>
      if body != [] && AllDigits(body) then Some(DigitsValue(body) as real) else None
    case Some(i) =>
      var whole, frac := body[..i], body[i + 1..];
      if |body| > 1 && AllDigits(whole) && AllDigits(frac)
      then
        var digits, weight := DigitsValue(frac) as real, Pow10(|frac|) as real;
        assert digits / weight >= 0.0 by {
          assert weight > 0.0 && (digits / weight) * weight == digits;
        }
        Some(DigitsValue(whole) as real + digits / weight)
      else None
  }

  /** float(text) on decimal text: None where Python raises ValueError.
      Surrounding whitespace is ignored, as float() does. */
  function ParseDecimal(s: string): (r: Option<real>)
    ensures r.Some? <==> IsDecimal(Strip(s))
    ensures r.Some? && (Strip(s) == [] || Strip(s)[0] != '-') ==> r.value >= 0.0
  {
    var t := Strip(s);
    var neg := t != [] && t[0] == '-';
    UnsignedIsDecimal(Unsigned(t));
    match UnsignedValue(Unsigned(t))
    case None => None
    case Some(v) => Some(if neg then -v else v)
  }

  lemma UnsignedIsDecimal(body: string)
    ensures UnsignedValue(body).Some? <==> exists i :: DecimalAt(body, i)
  {
    var d := IndexOfDot(body);
    if UnsignedValue(body).Some? {
      if d.None? {
        assert body[..|body|] == body;
        assert DecimalAt(body, |body|);
      } else {
        assert DecimalAt(body, d.value);
      }
    }
    if i :| DecimalAt(body, i) {
      assert forall k :: 0 <= k < i ==> body[k] != '.' by {
        forall k | 0 <= k < i ensures body[k] != '.' {
          assert body[..i][k] == body[k];
        }
      }
      if d.None? {
        assert i == |body|;
        assert body[..i] == body;
      } else {
        var j := d.value;
        assert j >= i;
        assert j == i;
      }
    }
  }
}
