/**
  sanitizeForCsv of Html2CsvParseHandler: the text of a `td` cell made ready
  for a CSV field. Null, the empty string and the two-character string `""`
  give the empty field; otherwise every `"` is doubled, and the result is
  wrapped in one pair of `"` when the original contains `,` or `\n` or starts
  or ends with whitespace. A value whose only special character is a quote
  (or a bare `\r`) is NOT wrapped, which is looser than section 2 of RFC 4180.
 */
module CsvCells {
  import opened Wrappers

  /** `Character.isWhitespace` for one UTF-16 unit: the Unicode space, line and paragraph
      separators other than the no-break spaces, and the controls U+0009-U+000D, U+001C-U+001F. */
  predicate IsJavaWhitespace(c: char) {
    var n := c as int;
    (0x09 <= n <= 0x0D) || (0x1C <= n <= 0x20) || n == 0x1680 || (0x2000 <= n <= 0x2006)
    || (0x2008 <= n <= 0x200A) || n == 0x2028 || n == 0x2029 || n == 0x205F || n == 0x3000
  }

  function CountQuotes(s: string): nat {
    if s == [] then 0 else (if s[0] == '"' then 1 else 0) + CountQuotes(s[1..])
  }

  /** The quote-doubling rewrite: every `"` of `s` replaced by `""`; it grows by one per quote. */
  function DoubleQuotes(s: string): (doubled: string)
    ensures |doubled| == |s| + CountQuotes(s)
  {
    if s == [] then [] else (if s[0] == '"' then "\"\"" else [s[0]]) + DoubleQuotes(s[1..])
  }

  /** The inverse rewrite, as a CSV reader undoes the escaping inside a field. */
  function UndoubleQuotes(t: string): string
    decreases |t|
  {
    if t == [] then []
    else if |t| >= 2 && t[0] == '"' && t[1] == '"' then ['"'] + UndoubleQuotes(t[2..])
    else [t[0]] + UndoubleQuotes(t[1..])
  }

  /** Every quote of `t` belongs to a `""` pair, read from the left. */
  predicate QuotesPaired(t: string)
    decreases |t|
  {
    if t == [] then true
    else if t[0] == '"' then |t| >= 2 && t[1] == '"' && QuotesPaired(t[2..])
    else QuotesPaired(t[1..])
  }

  /** The condition of the wrapping rule, on the original (non-empty) value. */
  predicate NeedsWrapping(s: string)
    requires s != []
  {
    ',' in s || '\n' in s || IsJavaWhitespace(s[0]) || IsJavaWhitespace(s[|s| - 1])
  }

  /** What sanitizeForCsv returns for a non-null argument. */
  function CsvField(s: string): (field: string)
    ensures s == "" || s == "\"\"" ==> field == ""
    ensures s != "" && s != "\"\"" ==>
      |field| == |s| + CountQuotes(s) + (if NeedsWrapping(s) then 2 else 0)
  {
    if s == "" || s == "\"\"" then ""
    else if NeedsWrapping(s) then "\"" + DoubleQuotes(s) + "\""
    else DoubleQuotes(s)
  }

  /** `StringBuilder.indexOf(str, fromIndex)` for a one-character `str`: the first index at or after `from`, or -1. */
  function IndexOf(s: string, c: char, from: nat): (index: int)
    decreases |s| - from
    ensures index == -1 || from <= index < |s|
    ensures index == -1 <==> forall i :: from <= i < |s| ==> s[i] != c
    ensures index >= 0 ==> s[index] == c && forall i :: from <= i < index ==> s[i] != c
  {
    if from >= |s| then -1 else if s[from] == c then from else IndexOf(s, c, from + 1)
  }

  /**
    sanitizeForCsv: the loop rewrites the buffer in place, and `lastIndex`
    skips past the pair it has just written so that no inserted quote is
    doubled again.
   */
  method SanitizeForCsv(cellData: Option<string>) returns (result: string)
    ensures cellData.None? ==> result == ""
    ensures cellData.Some? ==> result == CsvField(cellData.value)
  {
    if cellData.None? || cellData.value == "" || cellData.value == "\"\"" {
      return "";
    }
    var s := cellData.value;
    result := s;
    var lastIndex := 0;
    ghost var k := 0;
    assert s[..0] == [];
    while IndexOf(result, '"', lastIndex) >= 0
      invariant 0 <= k <= |s|
      invariant result == DoubleQuotes(s[..k]) + s[k..]
      invariant lastIndex == |DoubleQuotes(s[..k])|
      decreases |result| - lastIndex
    {
      var quoteIndex := IndexOf(result, '"', lastIndex);
      k := QuoteFound(s, k, result, lastIndex, quoteIndex);
      result := result[..quoteIndex] + "\"\"" + result[quoteIndex + 1..];
      lastIndex := quoteIndex + 2;
    }
    NoQuoteLeft(s, k, result, lastIndex);
    if NeedsWrapping(s) {
      result := "\"" + result + "\"";
    }
  }

  /**
    One turn of the loop: the quote found at `quoteIndex` is the first one of
    the part not yet rewritten, and replacing it by a pair extends the
    rewritten prefix up to and including it.
   */
  lemma QuoteFound(s: string, k: nat, buffer: string, lastIndex: nat, quoteIndex: int) returns (k': nat)
    requires k <= |s| && buffer == DoubleQuotes(s[..k]) + s[k..] && lastIndex == |DoubleQuotes(s[..k])|
    requires quoteIndex == IndexOf(buffer, '"', lastIndex) && quoteIndex >= 0
    ensures k < k' <= |s| && k' == k + (quoteIndex - lastIndex) + 1
    ensures buffer[..quoteIndex] + "\"\"" + buffer[quoteIndex + 1..] == DoubleQuotes(s[..k']) + s[k'..]
    ensures quoteIndex + 2 == |DoubleQuotes(s[..k'])|
  {
    var j := quoteIndex - lastIndex;
    assert s[k + j] == '"' by { assert buffer[lastIndex + j] == s[k + j]; }
    assert forall i :: k <= i < k + j ==> s[i] != '"' by {
      forall i | k <= i < k + j ensures s[i] != '"' {
        assert buffer[lastIndex + (i - k)] == s[i];
      }
    }
    DoubleQuotesStep(s, k, j);
    k' := k + j + 1;
    assert buffer[..quoteIndex] == DoubleQuotes(s[..k]) + s[k..k + j];
    assert buffer[quoteIndex + 1..] == s[k'..] by {
      assert buffer[lastIndex..] == s[k..];
      assert buffer[quoteIndex + 1..] == buffer[lastIndex..][j + 1..];
    }
  }

  /** When no quote is left after `lastIndex`, the buffer is the full rewrite. */
  lemma NoQuoteLeft(s: string, k: nat, buffer: string, lastIndex: nat)
    requires k <= |s| && buffer == DoubleQuotes(s[..k]) + s[k..] && lastIndex == |DoubleQuotes(s[..k])|
    requires IndexOf(buffer, '"', lastIndex) < 0
    ensures buffer == DoubleQuotes(s)
  {
    assert forall i :: k <= i < |s| ==> s[i] != '"' by {
      forall i | k <= i < |s| ensures s[i] != '"' {
        assert buffer[lastIndex + (i - k)] == s[i];
      }
    }
    NoQuotesUnchanged(s[k..]);
    DoubleQuotesAppend(s[..k], s[k..]);
    assert s[..k] + s[k..] == s;
  }

  /** One turn of the loop: a quote-free stretch, then one quote, after the part already rewritten. */
  lemma DoubleQuotesStep(s: string, k: nat, j: nat)
    requires k + j < |s| && s[k + j] == '"'
    requires forall i :: k <= i < k + j ==> s[i] != '"'
    ensures DoubleQuotes(s[..k + j + 1]) == DoubleQuotes(s[..k]) + s[k..k + j] + "\"\""
  {
    assert s[..k + j + 1] == s[..k] + s[k..k + j] + ['"'];
    DoubleQuotesAppend(s[..k] + s[k..k + j], ['"']);
    DoubleQuotesAppend(s[..k], s[k..k + j]);
    NoQuotesUnchanged(s[k..k + j]);
  }

  lemma {:induction false} DoubleQuotesAppend(a: string, b: string)
    ensures DoubleQuotes(a + b) == DoubleQuotes(a) + DoubleQuotes(b)
    decreases |a|
  {
    if a != [] {
      assert (a + b)[1..] == a[1..] + b;
      DoubleQuotesAppend(a[1..], b);
    } else {
      assert a + b == b;
    }
  }

  lemma {:induction false} NoQuotesUnchanged(s: string)
    requires forall i :: 0 <= i < |s| ==> s[i] != '"'
    ensures DoubleQuotes(s) == s
    decreases |s|
  {
    if s != [] {
      NoQuotesUnchanged(s[1..]);
    }
  }

  /** Doubling leaves every quote paired, and undoubling gives the original back. */
  lemma {:induction false} UndoubleDoubleQuotes(s: string)
    ensures QuotesPaired(DoubleQuotes(s))
    ensures UndoubleQuotes(DoubleQuotes(s)) == s
    decreases |s|
  {
    if s != [] {
      UndoubleDoubleQuotes(s[1..]);
      var rest := DoubleQuotes(s[1..]);
      if s[0] == '"' {
        var d := "\"\"" + rest;
        assert d[2..] == rest;
        assert UndoubleQuotes(d) == ['"'] + UndoubleQuotes(rest);
      } else {
        var d := [s[0]] + rest;
        assert d[1..] == rest;
        assert UndoubleQuotes(d) == [s[0]] + UndoubleQuotes(rest);
      }
    }
  }

  /** Conversely, every paired string is the doubling of its undoubling. */
  lemma {:induction false} DoubleUndoubleQuotes(t: string)
    requires QuotesPaired(t)
    ensures DoubleQuotes(UndoubleQuotes(t)) == t
    decreases |t|
  {
    if t != [] {
      if t[0] == '"' {
        DoubleUndoubleQuotes(t[2..]);
        var u := ['"'] + UndoubleQuotes(t[2..]);
        assert u[1..] == UndoubleQuotes(t[2..]);
        assert t == "\"\"" + t[2..];
      } else {
        DoubleUndoubleQuotes(t[1..]);
        var u := [t[0]] + UndoubleQuotes(t[1..]);
        assert u[1..] == UndoubleQuotes(t[1..]);
        assert t == [t[0]] + t[1..];
      }
    }
  }

  /** A non-quote character survives doubling. */
  lemma {:induction false} DoubleQuotesKeepsOthers(s: string, c: char)
    requires c in s && c != '"'
    ensures c in DoubleQuotes(s)
    decreases |s|
  {
    if s[0] != c {
      assert c in s[1..];
      DoubleQuotesKeepsOthers(s[1..], c);
    }
  }

  /** A paired string holding some non-quote character is not paired once wrapped in quotes. */
  lemma {:induction false} WrappedNotPaired(p: string, c: char)
    requires QuotesPaired(p) && c in p && c != '"'
    ensures !QuotesPaired("\"" + p + "\"")
    decreases |p|
  {
    var w := "\"" + p + "\"";
    if p[0] == '"' {
      assert p[1] == '"';
      assert c in p[2..] by {
        var i :| 0 <= i < |p| && p[i] == c;
        assert i >= 2 && p[2..][i - 2] == c;
      }
      WrappedNotPaired(p[2..], c);
      assert w[2..] == p[1..] + "\"";
      assert w[3..] == p[2..] + "\"";
      assert "\"" + p[2..] + "\"" == w[2..];
    } else {
      assert w[1] == p[0];
    }
  }

  /**
    The wrapping rule, read off the output: apart from the three empty cases,
    the field carries an unpaired outer quote exactly when the original
    contains `,` or `\n`, or starts or ends with whitespace.
   */
  lemma CsvFieldWrapsExactly(s: string)
    requires s != "" && s != "\"\""
    ensures QuotesPaired(CsvField(s)) <==> !NeedsWrapping(s)
  {
    UndoubleDoubleQuotes(s);
    if NeedsWrapping(s) {
      var c :| c in s && c != '"' && (c == ',' || c == '\n' || IsJavaWhitespace(c)) by {
        if ',' in s { } else if '\n' in s { } else if IsJavaWhitespace(s[0]) {
          assert s[0] in s;
        } else {
          assert s[|s| - 1] in s;
        }
      }
      DoubleQuotesKeepsOthers(s, c);
      WrappedNotPaired(DoubleQuotes(s), c);
    }
  }

  /**
    The inverse of sanitizeForCsv's own escaping: strip the outer pair if the
    quotes are unpaired, then undouble. It is not how an RFC 4180 reader treats
    an unquoted field (see UnwrappedQuoteMisreadByRfc4180).
   */
  function ParseCsvField(t: string): string {
    if QuotesPaired(t) then UndoubleQuotes(t)
    else if |t| >= 2 then UndoubleQuotes(t[1..|t| - 1])
    else t
  }

  /** Undoing the escaping gives the cell text back, for every text but `""` (which comes back empty). */
  lemma CsvFieldRoundTrip(s: string)
    requires s != "\"\""
    ensures ParseCsvField(CsvField(s)) == s
  {
    if s != "" {
      CsvFieldWrapsExactly(s);
      UndoubleDoubleQuotes(s);
      if NeedsWrapping(s) {
        var f := CsvField(s);
        assert f[1..|f| - 1] == DoubleQuotes(s);
      }
    }
  }

  /** The three inputs that give the empty field. */
  lemma CsvFieldEmptyCases()
    ensures CsvField("") == "" && CsvField("\"\"") == ""
  {
  }

  /** An embedded quote is doubled but, unlike section 2 of RFC 4180 asks, not wrapped. */
  lemma CsvFieldQuoteNotWrapped()
    ensures CsvField("a\"b") == "a\"\"b"
  {
    assert !NeedsWrapping("a\"b");
    assert DoubleQuotes("b") == "b";
    assert DoubleQuotes("\"b") == "\"\"b";
  }

  /** A bare carriage return does not cause wrapping. */
  lemma CsvFieldCarriageReturnNotWrapped()
    ensures CsvField("a\rb") == "a\rb"
  {
    assert !NeedsWrapping("a\rb");
    NoQuotesUnchanged("a\rb");
  }

  /** A comma, or a leading blank, causes wrapping. */
  lemma CsvFieldCommaWrapped()
    ensures CsvField("1,234") == "\"1,234\""
  {
    assert NeedsWrapping("1,234") by { assert "1,234"[1] == ','; }
    NoQuotesUnchanged("1,234");
    CommaGlue();
  }

  /** Kept apart from its caller: there, the solver unfolds the field functions on this literal and runs out of resource. */
  lemma CommaGlue()
    ensures "\"" + "1,234" + "\"" == "\"1,234\""
  {
  }

  lemma CsvFieldLeadingBlankWrapped()
    ensures CsvField(" x") == "\" x\""
  {
    NoQuotesUnchanged(" x");
  }

  /** How section 2 of RFC 4180 reads one field: quotes are special only in a field enclosed in them. */
  function Rfc4180Field(t: string): string {
    if |t| >= 2 && t[0] == '"' && t[|t| - 1] == '"' then UndoubleQuotes(t[1..|t| - 1]) else t
  }

  lemma {:induction false} QuoteCounted(s: string)
    requires '"' in s
    ensures CountQuotes(s) > 0
    decreases |s|
  {
    if s[0] != '"' {
      assert '"' in s[1..];
      QuoteCounted(s[1..]);
    }
  }

  /**
    The looseness of the wrapping rule: a cell whose quotes are its only
    special characters is doubled but not wrapped, so an RFC 4180 reader
    keeps the doubled quotes and reads a different text.
   */
  lemma UnwrappedQuoteMisreadByRfc4180(s: string)
    requires s != [] && s[0] != '"' && '"' in s && !NeedsWrapping(s)
    ensures CsvField(s) == DoubleQuotes(s)
    ensures Rfc4180Field(CsvField(s)) == DoubleQuotes(s) != s
  {
    QuoteCounted(s);
    assert DoubleQuotes(s)[0] == s[0];
  }
}
