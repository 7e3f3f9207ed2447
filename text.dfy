/**
 * String helpers of the presenter: the search normalisation `norm`, the
 * substring test `includes`, `escapeHtml`, the date-key formatter
 * `formatDateKey`, and the ordering JavaScript's default `sort()` puts on
 * strings.
 */
module Text {

  // ---------------------------------------------------------------------
  // Character classes
  // ---------------------------------------------------------------------

  predicate IsUpper(c: char) { 'A' <= c <= 'Z' }

  /** The characters String.prototype.trim removes: the ECMAScript
      WhiteSpace and LineTerminator code points. */
  predicate IsSpace(c: char)
  {
    c == '\t' || c == '\n' || c == '\U{000B}' || c == '\U{000C}' || c == '\r' ||
    c == ' ' || c == '\U{00A0}' || c == '\U{1680}' ||
    ('\U{2000}' <= c <= '\U{200A}') ||
    c == '\U{2028}' || c == '\U{2029}' || c == '\U{202F}' || c == '\U{205F}' ||
    c == '\U{3000}' || c == '\U{FEFF}'
  }

  function LowerChar(c: char): (d: char)
    ensures !IsUpper(d)
    ensures IsSpace(d) <==> IsSpace(c)
    ensures !IsUpper(c) ==> d == c
    ensures IsUpper(c) ==> d as int == c as int + 32
  {
    if IsUpper(c) then (c as int + 32) as char else c
  }

  /** toLowerCase, on the ASCII letters. */
  function Lower(s: string): (r: string)
    ensures |r| == |s|
    ensures forall i :: 0 <= i < |s| ==> r[i] == LowerChar(s[i])
  {
    if s == [] then [] else [LowerChar(s[0])] + Lower(s[1..])
  }

  // ---------------------------------------------------------------------
  // trim and norm
  // ---------------------------------------------------------------------

  /** How many white-space characters `s` starts with. */
  function LeadingSpaces(s: string): (n: nat)
    ensures n <= |s|
    ensures forall k :: 0 <= k < n ==> IsSpace(s[k])
    ensures n < |s| ==> !IsSpace(s[n])
  {
    if s != [] && IsSpace(s[0]) then 1 + LeadingSpaces(s[1..]) else 0
  }

  /** How many white-space characters `s` ends with. */
  function TrailingSpaces(s: string): (n: nat)
    ensures n <= |s|
    ensures forall k :: |s| - n <= k < |s| ==> IsSpace(s[k])
    ensures n < |s| ==> !IsSpace(s[|s| - n - 1])
  {
    if s != [] && IsSpace(s[|s| - 1]) then 1 + TrailingSpaces(s[..|s| - 1]) else 0
  }

  /** String.prototype.trim: a contiguous slice of `s` that neither starts
      nor ends with white space, with only white space cut away. */
  function Trim(s: string): (r: string)
    ensures exists i, j :: (0 <= i <= j <= |s| && r == s[i..j] &&
                             (forall k :: 0 <= k < i ==> IsSpace(s[k])) &&
                             (forall k :: j <= k < |s| ==> IsSpace(s[k])))
    ensures r != [] ==> !IsSpace(r[0]) && !IsSpace(r[|r| - 1])
  {
    var i := LeadingSpaces(s);
    var t := s[i..];
    var j := i + |t| - TrailingSpaces(t);
    assert forall k :: j <= k < |s| ==> s[k] == t[k - i];
    s[i..j]
  }

  /** The search normalisation: lower-case, then trim. */
  function Norm(s: string): (r: string)
    ensures forall k :: 0 <= k < |r| ==> !IsUpper(r[k])
    ensures r != [] ==> !IsSpace(r[0]) && !IsSpace(r[|r| - 1])
    ensures |r| <= |s|
  {
    Trim(Lower(s))
  }

  /** Empty after normalisation exactly when the text is all white space;
      this is what makes a blank query mean "no search". */
  lemma {:induction false} NormEmptyIffBlank(s: string)
    ensures Norm(s) == "" <==> forall k :: 0 <= k < |s| ==> IsSpace(s[k])
  {
    var l := Lower(s);
    var r := Norm(s);
    var i, j :| 0 <= i <= j <= |l| && r == l[i..j] &&
      (forall k :: 0 <= k < i ==> IsSpace(l[k])) &&
      (forall k :: j <= k < |l| ==> IsSpace(l[k]));
    if r == "" {
      forall k | 0 <= k < |s| ensures IsSpace(s[k]) {
        assert IsSpace(l[k]);
      }
    } else {
      assert !IsSpace(l[i]);
      assert !IsSpace(s[i]);
    }
  }

  /** Normalising twice changes nothing. */
  lemma {:induction false} NormIdempotent(s: string)
    ensures Norm(Norm(s)) == Norm(s)
  {
    var r := Norm(s);
    assert Lower(r) == r by {
      forall k | 0 <= k < |r| ensures Lower(r)[k] == r[k] {}
    }
    TrimOfTrimmed(r);
  }

  lemma {:induction false} TrimOfTrimmed(r: string)
    requires r != [] ==> !IsSpace(r[0]) && !IsSpace(r[|r| - 1])
    ensures Trim(r) == r
  {
    var t := Trim(r);
    var i, j :| 0 <= i <= j <= |r| && t == r[i..j] &&
      (forall k :: 0 <= k < i ==> IsSpace(r[k])) &&
      (forall k :: j <= k < |r| ==> IsSpace(r[k]));
    if r != [] {
      assert i == 0;
      assert j == |r|;
    }
  }

  /** Upper- and lower-case spellings of a query normalise alike. */
  lemma {:induction false} NormIgnoresAsciiCase(s: string, t: string)
    requires |s| == |t|
    requires forall k :: 0 <= k < |s| ==> LowerChar(s[k]) == LowerChar(t[k])
    ensures Norm(s) == Norm(t)
  {
    assert Lower(s) == Lower(t);
  }

  /** Two spellings that differ only in the case of ASCII letters ('A' against
      'a', and so on) normalise alike: the search is case-insensitive on ASCII. */
  lemma NormCaseInsensitive(s: string, t: string)
    requires |s| == |t|
    requires forall k :: 0 <= k < |s| ==>
      s[k] == t[k] ||
      (IsUpper(s[k]) && t[k] as int == s[k] as int + 32) ||
      (IsUpper(t[k]) && s[k] as int == t[k] as int + 32)
    ensures Norm(s) == Norm(t)
  {
    forall k | 0 <= k < |s| ensures LowerChar(s[k]) == LowerChar(t[k]) {
    }
    NormIgnoresAsciiCase(s, t);
  }

  // ---------------------------------------------------------------------
  // includes
  // ---------------------------------------------------------------------

  predicate OccursAt(hay: string, needle: string, i: int)
  {
    0 <= i && i + |needle| <= |hay| && hay[i..i + |needle|] == needle
  }

  /** String.prototype.includes. */
  function Contains(hay: string, needle: string): (r: bool)
    ensures needle <= hay ==> r
    ensures r ==> |needle| <= |hay|
    decreases |hay|
  {
    needle <= hay || (hay != [] && Contains(hay[1..], needle))
  }

  /** `includes` holds exactly when the needle occurs at some position. */
  lemma {:induction false} ContainsIffOccurs(hay: string, needle: string)
    ensures Contains(hay, needle) <==> exists i :: OccursAt(hay, needle, i)
    decreases |hay|
  {
    if needle <= hay {
      assert OccursAt(hay, needle, 0);
    } else if hay == [] {
    } else {
      ContainsIffOccurs(hay[1..], needle);
      if exists i :: OccursAt(hay, needle, i) {
        var i :| OccursAt(hay, needle, i);
        assert i != 0;
        assert OccursAt(hay[1..], needle, i - 1);
      }
      if exists i :: OccursAt(hay[1..], needle, i) {
        var i :| OccursAt(hay[1..], needle, i);
        assert OccursAt(hay, needle, i + 1);
      }
    }
  }

  // ---------------------------------------------------------------------
  // escapeHtml
  // ---------------------------------------------------------------------

  predicate IsMarkup(c: char) { c == '&' || c == '<' || c == '>' || c == '"' || c == '\'' }

  /** The replacement escapeHtml writes for one character. */
  function EscapeChar(c: char): (r: string)
    ensures forall k :: 0 <= k < |r| ==> r[k] != '<' && r[k] != '>' && r[k] != '"' && r[k] != '\''
    ensures !IsMarkup(c) ==> r == [c]
    ensures r != [] && (r[0] == '&' <==> IsMarkup(c))
  {
    match c
    case '&' => "&amp;"
    case '<' => "&lt;"
    case '>' => "&gt;"
    case '"' => "&quot;"
    case '\'' => "&#039;"
    case _ => [c]
  }

  /** escapeHtml: every character replaced by its entity, left to right. */
  function EscapeHtml(s: string): (r: string)
    ensures forall k :: 0 <= k < |r| ==> r[k] != '<' && r[k] != '>' && r[k] != '"' && r[k] != '\''
    ensures |r| >= |s|
  {
    if s == [] then [] else EscapeChar(s[0]) + EscapeHtml(s[1..])
  }

  /** Text holding one of the five markup characters gets longer. */
  lemma {:induction false} EscapeGrowsOnMarkup(s: string)
    requires exists k :: 0 <= k < |s| && IsMarkup(s[k])
    ensures |EscapeHtml(s)| > |s|
  {
    if !IsMarkup(s[0]) {
      var k :| 0 <= k < |s| && IsMarkup(s[k]);
      assert IsMarkup(s[1..][k - 1]);
      EscapeGrowsOnMarkup(s[1..]);
    }
  }

  /** Text without any of the five markup characters passes through unchanged. */
  lemma {:induction false} EscapePlainText(s: string)
    requires forall k :: 0 <= k < |s| ==> !IsMarkup(s[k])
    ensures EscapeHtml(s) == s
  {
    if s != [] {
      EscapePlainText(s[1..]);
    }
  }

  /** Escaping works character by character, so it distributes over concatenation. */
  lemma {:induction false} EscapeConcat(a: string, b: string)
    ensures EscapeHtml(a + b) == EscapeHtml(a) + EscapeHtml(b)
  {
    if a != [] {
      assert (a + b)[1..] == a[1..] + b;
      EscapeConcat(a[1..], b);
    } else {
      assert a + b == b;
    }
  }

  /** How a browser reads the five entities back while parsing markup text. */
  function UnescapeHtml(s: string): string
    decreases |s|
  {
    if s == [] then []
    else if "&amp;" <= s then "&" + UnescapeHtml(s[5..])
    else if "&lt;" <= s then "<" + UnescapeHtml(s[4..])
    else if "&gt;" <= s then ">" + UnescapeHtml(s[4..])
    else if "&quot;" <= s then "\"" + UnescapeHtml(s[6..])
    else if "&#039;" <= s then "'" + UnescapeHtml(s[6..])
    else [s[0]] + UnescapeHtml(s[1..])
  }

  /** Reading back one escaped character followed by more text. */
  lemma UnescapeOne(c: char, rest: string)
    ensures UnescapeHtml(EscapeChar(c) + rest) == [c] + UnescapeHtml(rest)
  {
    var t := EscapeChar(c) + rest;
    assert t[|EscapeChar(c)|..] == rest;
    if !IsMarkup(c) {
      assert t[0] == c && c != '&';
      assert !("&amp;" <= t) && !("&lt;" <= t) && !("&gt;" <= t) && !("&quot;" <= t) && !("&#039;" <= t);
    } else if c == '&' {
      assert "&amp;" <= t;
    } else if c == '<' {
      assert "&lt;" <= t && t[1] == 'l';
    } else if c == '>' {
      assert "&gt;" <= t && t[1] == 'g';
    } else if c == '"' {
      assert "&quot;" <= t && t[1] == 'q';
    } else {
      assert "&#039;" <= t && t[1] == '#';
    }
  }

  /** The text a reader sees is exactly the text that was escaped. */
  lemma {:induction false} UnescapeEscape(s: string)
    ensures UnescapeHtml(EscapeHtml(s)) == s
  {
    if s != [] {
      UnescapeEscape(s[1..]);
      UnescapeOne(s[0], EscapeHtml(s[1..]));
      assert s == [s[0]] + s[1..];
    }
  }

  // ---------------------------------------------------------------------
  // split and formatDateKey
  // ---------------------------------------------------------------------

  /** String.prototype.split("-"): the pieces between the dashes, always at least one. */
  function Split(s: string): (r: seq<string>)
    ensures |r| >= 1
    ensures forall p, k :: p in r && 0 <= k < |p| ==> p[k] != '-'
  {
    if s == [] then [[]]
    else if s[0] == '-' then [[]] + Split(s[1..])
    else
      var rest := Split(s[1..]);
      [[s[0]] + rest[0]] + rest[1..]
  }

  predicate NoDash(s: string) { forall k :: 0 <= k < |s| ==> s[k] != '-' }

  lemma {:induction false} SplitDashFree(a: string, b: string)
    requires NoDash(a)
    ensures Split(a + "-" + b) == [a] + Split(b)
  {
    if a == [] {
      assert a + "-" + b == ['-'] + b;
      assert (['-'] + b)[1..] == b;
    } else {
      assert (a + "-" + b)[1..] == a[1..] + "-" + b;
      SplitDashFree(a[1..], b);
      assert [a[0]] + a[1..] == a;
    }
  }

  lemma {:induction false} SplitNoDash(a: string)
    requires NoDash(a)
    ensures Split(a) == [a]
  {
    if a != [] {
      SplitNoDash(a[1..]);
      assert [a[0]] + a[1..] == a;
    }
  }

  /** Element `i` of a destructuring `[y, m, d] = parts`, spelt as a
      template literal writes it: a missing element reads "undefined". */
  function Part(parts: seq<string>, i: nat): string
  {
    if i < |parts| then parts[i] else "undefined"
  }

  /** formatDateKey: "" for an empty key, otherwise the first three dash
      separated pieces in day/month/year order. */
  function FormatDateKey(key: string): (r: string)
    ensures key == "" <==> r == ""
  {
    if key == "" then ""
    else
      var p := Split(key);
      Part(p, 2) + "/" + Part(p, 1) + "/" + Part(p, 0)
  }

  /** A well-formed key y-m-d is shown as d/m/y. */
  lemma FormatDateKeyYmd(y: string, m: string, d: string)
    requires NoDash(y) && NoDash(m) && NoDash(d)
    ensures FormatDateKey(y + "-" + m + "-" + d) == d + "/" + m + "/" + y
  {
    SplitNoDash(d);
    SplitDashFree(m, d);
    assert y + "-" + m + "-" + d == y + "-" + (m + "-" + d);
    SplitDashFree(y, m + "-" + d);
    assert Split(y + "-" + m + "-" + d) == [y, m, d];
  }

  // ---------------------------------------------------------------------
  // The order of Array.prototype.sort() on strings
  // ---------------------------------------------------------------------

  /** `a <= b` on JavaScript strings: lexicographic by character, a proper
      prefix coming first. */
  function StrLe(a: string, b: string): (r: bool)
    ensures a <= b ==> r
    ensures r && a != [] ==> b != [] && a[0] <= b[0]
  {
    a == [] || (b != [] && (a[0] < b[0] || (a[0] == b[0] && StrLe(a[1..], b[1..]))))
  }

  lemma {:induction false} StrLeTotal(a: string, b: string)
    ensures StrLe(a, b) || StrLe(b, a)
  {
    if a != [] && b != [] && a[0] == b[0] {
      StrLeTotal(a[1..], b[1..]);
    }
  }

  lemma {:induction false} StrLeReflexive(a: string)
    ensures StrLe(a, a)
  {
    if a != [] {
      StrLeReflexive(a[1..]);
    }
  }

  lemma {:induction false} StrLeAntisymmetric(a: string, b: string)
    requires StrLe(a, b) && StrLe(b, a)
    ensures a == b
  {
    if a != [] && b != [] {
      StrLeAntisymmetric(a[1..], b[1..]);
      assert a == [a[0]] + a[1..] && b == [b[0]] + b[1..];
    }
  }

  lemma {:induction false} StrLeTransitive(a: string, b: string, c: string)
    requires StrLe(a, b) && StrLe(b, c)
    ensures StrLe(a, c)
  {
    if a != [] && b != [] && c != [] && a[0] == b[0] == c[0] {
      StrLeTransitive(a[1..], b[1..], c[1..]);
    }
  }

  // ---------------------------------------------------------------------
  // Number to text, for the figure quoted in a message
  // ---------------------------------------------------------------------

  function DigitChar(d: nat): (c: char)
    requires d < 10
    ensures '0' <= c <= '9'
  {
    ('0' as int + d) as char
  }

  /** The decimal spelling of a natural number, as a template literal writes
      it: digits only, with no leading zero. */
  function NatToString(n: nat): (r: string)
    ensures |r| >= 1
    ensures forall k :: 0 <= k < |r| ==> '0' <= r[k] <= '9'
    ensures n > 0 ==> r[0] != '0'
  {
    if n < 10 then [DigitChar(n)] else NatToString(n / 10) + [DigitChar(n % 10)]
  }

  /** The number a string of decimal digits denotes. */
  function DecimalValue(s: string): nat
    requires forall k :: 0 <= k < |s| ==> '0' <= s[k] <= '9'
  {
    if s == [] then 0 else 10 * DecimalValue(s[..|s| - 1]) + (s[|s| - 1] as int - '0' as int)
  }

  /** The spelling denotes the number it was made from. */
  lemma {:induction false} NatToStringValue(n: nat)
    ensures DecimalValue(NatToString(n)) == n
  {
    if n >= 10 {
      NatToStringValue(n / 10);
      var r := NatToString(n);
      assert r[..|r| - 1] == NatToString(n / 10);
    }
  }
}
