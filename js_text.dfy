/**
 * The JavaScript string primitives the service relies on: `String.prototype.split`
 * with a one-character separator, `Array.prototype.join`, `parseInt(s, 10)`,
 * the decimal rendering of an integer inside a template literal, and the
 * resource-id extraction `parseInt(url.split('/')[len - 2], 10)`.
 */
module JsText {
  import opened Wrappers

  // ---------------------------------------------------------------- split / join

  /** `s.split(sep)`: the pieces between occurrences of `sep`, in order. */
  function Split(s: string, sep: char): (parts: seq<string>)
    ensures |parts| >= 1
    ensures forall i :: 0 <= i < |parts| ==> sep !in parts[i]
  {
    if s == [] then [""]
    else
      var rest := Split(s[1..], sep);
      if s[0] == sep then [""] + rest
      else [[s[0]] + rest[0]] + rest[1..]
  }

  /** `parts.join(sep)`. */
  function Join(parts: seq<string>, sep: string): string
  {
    if parts == [] then ""
    else if |parts| == 1 then parts[0]
    else parts[0] + sep + Join(parts[1..], sep)
  }

  /** Joining the pieces of a split with the separator gives back the string. */
  lemma {:induction false} JoinSplit(s: string, sep: char)
    ensures Join(Split(s, sep), [sep]) == s
  {
    if s != [] {
      var rest := Split(s[1..], sep);
      JoinSplit(s[1..], sep);
      if s[0] == sep {
        assert Split(s, sep) == [""] + rest;
      } else if |rest| == 1 {
        assert Split(s, sep) == [[s[0]] + rest[0]];
      } else {
        var parts := Split(s, sep);
        assert parts == [[s[0]] + rest[0]] + rest[1..];
        assert parts[1..] == rest[1..];
        assert Join(rest, [sep]) == rest[0] + [sep] + Join(rest[1..], [sep]);
      }
    }
  }

  /** Splitting at a separator occurrence splits the two sides independently. */
  lemma {:induction false} SplitAround(a: string, sep: char, b: string)
    ensures Split(a + [sep] + b, sep) == Split(a, sep) + Split(b, sep)
  {
    if a == [] {
      assert a + [sep] + b == [sep] + b;
      assert ([sep] + b)[1..] == b;
    } else {
      var s := a + [sep] + b;
      assert s[0] == a[0] && s[1..] == a[1..] + [sep] + b;
      SplitAround(a[1..], sep, b);
    }
  }

  /** A string without the separator is one piece. */
  lemma {:induction false} SplitWithoutSeparator(s: string, sep: char)
    requires sep !in s
    ensures Split(s, sep) == [s]
  {
    if s != [] {
      SplitWithoutSeparator(s[1..], sep);
      assert [s[0]] + s[1..] == s;
    }
  }

  /** Splitting a join of separator-free pieces gives back the pieces. */
  lemma {:induction false} SplitJoin(parts: seq<string>, sep: char)
    requires parts != []
    requires forall i :: 0 <= i < |parts| ==> sep !in parts[i]
    ensures Split(Join(parts, [sep]), sep) == parts
  {
    SplitWithoutSeparator(parts[0], sep);
    if |parts| > 1 {
      SplitJoin(parts[1..], sep);
      SplitAround(parts[0], sep, Join(parts[1..], [sep]));
    }
  }

  // ---------------------------------------------------------------- digits

  predicate IsDigit(c: char) { '0' <= c <= '9' }

  predicate AllDigits(s: string) { forall i :: 0 <= i < |s| ==> IsDigit(s[i]) }

  function DigitValue(c: char): nat requires IsDigit(c) { (c as int) - ('0' as int) }

  function DigitChar(d: nat): (c: char)
    requires d < 10
    ensures IsDigit(c) && DigitValue(c) == d
  {
    ('0' as int + d) as char
  }

  /** The value of a string of decimal digits, most significant first. */
  function DigitsValue(s: string): nat
    requires AllDigits(s)
  {
    if s == [] then 0 else DigitsValue(s[..|s| - 1]) * 10 + DigitValue(s[|s| - 1])
  }

  /** The decimal rendering of a natural number, without leading zeros. */
  function NatToDecimal(n: nat): (s: string)
    ensures s != [] && AllDigits(s)
  {
    if n < 10 then [DigitChar(n)] else NatToDecimal(n / 10) + [DigitChar(n % 10)]
  }

  /** `${n}` for an integer value. */
  function IntToDecimal(n: int): (s: string)
    ensures s != []
    ensures IsDigit(s[0]) || s[0] == '-'
    ensures forall i :: 1 <= i < |s| ==> IsDigit(s[i])
    ensures n < 0 <==> s[0] == '-'
  {
    if n < 0 then "-" + NatToDecimal(-n) else NatToDecimal(n)
  }

  lemma {:induction false} NatToDecimalValue(n: nat)
    ensures DigitsValue(NatToDecimal(n)) == n
  {
    if n >= 10 {
      NatToDecimalValue(n / 10);
      var s := NatToDecimal(n);
      assert s[..|s| - 1] == NatToDecimal(n / 10);
    }
  }

  // ---------------------------------------------------------------- parseInt

  /** The white space and line terminators that `parseInt` skips before the number. */
  predicate IsJsWhitespace(c: char)
  {
    || c in {'\t', '\U{000B}', '\U{000C}', ' ', '\U{00A0}', '\U{FEFF}'}
    || c in {'\n', '\r', '\U{2028}', '\U{2029}'}
    || c in {'\U{1680}', '\U{202F}', '\U{205F}', '\U{3000}'}
    || ('\U{2000}' <= c <= '\U{200A}')
  }

  function TrimStart(s: string): (t: string)
    ensures t == [] || !IsJsWhitespace(t[0])
    ensures |t| <= |s| && t == s[|s| - |t|..]
  {
    if s != [] && IsJsWhitespace(s[0]) then TrimStart(s[1..]) else s
  }

  /** The longest prefix of `s` made of decimal digits. */
  function LeadingDigits(s: string): (d: string)
    ensures AllDigits(d) && d <= s
    ensures |d| < |s| ==> !IsDigit(s[|d|])
  {
    if s != [] && IsDigit(s[0]) then [s[0]] + LeadingDigits(s[1..]) else ""
  }

  /**
   * `parseInt(s, 10)`: skip leading white space, read an optional sign and
   * the longest run of decimal digits; `None` stands for `NaN` (no digit).
   */
  function ParseInt(s: string): (r: Option<int>)
    ensures r.None? <==> LeadingDigits(Unsigned(TrimStart(s))) == []
  {
    var t := TrimStart(s);
    var digits := LeadingDigits(Unsigned(t));
    if digits == [] then None
    else
      var magnitude: int := DigitsValue(digits);
      if t[0] == '-' then Some(-magnitude) else Some(magnitude)
  }

  /** The string after an optional leading sign. */
  function Unsigned(t: string): string
  {
    if t != [] && (t[0] == '-' || t[0] == '+') then t[1..] else t
  }

  lemma {:induction false} LeadingDigitsOfDigits(s: string)
    requires AllDigits(s)
    ensures LeadingDigits(s) == s
  {
    if s != [] {
      LeadingDigitsOfDigits(s[1..]);
    }
  }

  /** Rendering an integer in decimal and parsing it back gives the integer. */
  lemma ParseIntOfDecimal(n: int)
    ensures ParseInt(IntToDecimal(n)) == Some(n)
  {
    var s := IntToDecimal(n);
    assert !IsJsWhitespace(s[0]) by {
      assert IsDigit(s[0]) || s[0] == '-';
    }
    assert TrimStart(s) == s;
    if n < 0 {
      assert Unsigned(s) == NatToDecimal(-n);
      LeadingDigitsOfDigits(NatToDecimal(-n));
      NatToDecimalValue(-n);
    } else {
      assert Unsigned(s) == NatToDecimal(n);
      LeadingDigitsOfDigits(NatToDecimal(n));
      NatToDecimalValue(n);
    }
  }

  /** Distinct integers have distinct decimal renderings. */
  lemma IntToDecimalInjective(a: int, b: int)
    requires IntToDecimal(a) == IntToDecimal(b)
    ensures a == b
  {
    ParseIntOfDecimal(a);
    ParseIntOfDecimal(b);
  }

  // ---------------------------------------------------------------- resource ids

  /** `parts[parts.length - 2]`, `undefined` when there are fewer than two parts. */
  function SecondToLast(parts: seq<string>): (r: Option<string>)
    ensures r.Some? <==> |parts| >= 2
    ensures r.Some? ==> r.value == parts[|parts| - 2]
  {
    if |parts| >= 2 then Some(parts[|parts| - 2]) else None
  }

  /** `parts.slice(-2, -1)[0]`, following the clamping rules of `Array.prototype.slice`. */
  function SliceSecondToLast(parts: seq<string>): Option<string>
  {
    var from := if |parts| >= 2 then |parts| - 2 else 0;
    var to := if |parts| >= 1 then |parts| - 1 else 0;
    if from < to then Some(parts[from..to][0]) else None
  }

  /** The two ways the source picks the id segment agree on every list. */
  lemma SliceSecondToLastAgrees(parts: seq<string>)
    ensures SliceSecondToLast(parts) == SecondToLast(parts)
  {
  }

  /** `parseInt(url.split('/')[parts.length - 2], 10)`; `parseInt(undefined)` is `NaN`. */
  function ResourceId(url: string): (r: Option<int>)
    ensures '/' !in url ==> r.None?
  {
    assert '/' !in url ==> Split(url, '/') == [url] by {
      if '/' !in url { SplitWithoutSeparator(url, '/'); }
    }
    match SecondToLast(Split(url, '/'))
    case None => None
    case Some(segment) => ParseInt(segment)
  }

  /** `parseInt(url.split('/').slice(-2, -1)[0], 10)`. */
  function ResourceIdViaSlice(url: string): (r: Option<int>)
    ensures r == ResourceId(url)
  {
    var parts := Split(url, '/');
    SliceSecondToLastAgrees(parts);
    match SliceSecondToLast(parts)
    case None => None
    case Some(segment) => ParseInt(segment)
  }

  /** A resource reference of the form `<prefix>/<id>/` yields `id`, whatever the prefix holds. */
  lemma ResourceIdOfCanonicalUrl(prefix: string, id: int)
    ensures ResourceId(prefix + "/" + IntToDecimal(id) + "/") == Some(id)
  {
    var d := IntToDecimal(id);
    NoSlashInDecimal(id);
    CanonicalUrlParts(prefix, d);
    var parts := Split(prefix + "/" + d + "/", '/');
    assert SecondToLast(parts) == Some(d);
    ParseIntOfDecimal(id);
  }

  lemma NoSlashInDecimal(n: int)
    ensures '/' !in IntToDecimal(n)
  {
    var d := IntToDecimal(n);
    forall i | 0 <= i < |d| ensures d[i] != '/' {
      assert i == 0 || IsDigit(d[i]);
    }
  }

  /** `<prefix>/<segment>/` splits into the pieces of the prefix, the segment and a final empty piece. */
  lemma CanonicalUrlParts(prefix: string, segment: string)
    requires '/' !in segment
    ensures Split(prefix + "/" + segment + "/", '/') == Split(prefix, '/') + [segment, ""]
  {
    assert prefix + "/" + segment + "/" == prefix + ['/'] + (segment + ['/'] + "");
    SplitAround(prefix, '/', segment + ['/'] + "");
    SplitAround(segment, '/', "");
    SplitWithoutSeparator(segment, '/');
  }

  /** The species reference of Pikachu yields 25. */
  lemma PikachuSpeciesId()
    ensures ResourceId("https://pokeapi.co/api/v2/pokemon-species/25/") == Some(25)
  {
    assert IntToDecimal(25) == "25";
    ResourceIdOfCanonicalUrl("https://pokeapi.co/api/v2/pokemon-species", 25);
    assert "https://pokeapi.co/api/v2/pokemon-species" + "/" + "25" + "/"
        == "https://pokeapi.co/api/v2/pokemon-species/25/";
  }

  /** A reference with no `/` at all has no id segment: `parseInt(undefined)` is `NaN`. */
  lemma NoSlashMeansNaN(url: string)
    requires '/' !in url
    ensures ResourceId(url).None?
  {
    SplitWithoutSeparator(url, '/');
  }
}
