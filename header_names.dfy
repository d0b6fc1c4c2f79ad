/**
  formatHeader of Html2CsvParseHandler: turns the text of a `th` cell into a
  column name. Three passes, in the order the source applies them:
  every character outside [A-Za-z0-9_] becomes `_`, every run of two or more
  `_` becomes one `_`, and the result is lower-cased.
 */
module HeaderNames {
  import opened Wrappers

  /** The character class [A-Za-z0-9_]. */
  predicate IsWordChar(c: char) {
    'A' <= c <= 'Z' || 'a' <= c <= 'z' || '0' <= c <= '9' || c == '_'
  }

  /** The characters a column name is made of: [a-z0-9_]. */
  predicate IsNameChar(c: char) {
    'a' <= c <= 'z' || '0' <= c <= '9' || c == '_'
  }

  /** No two consecutive underscores. */
  predicate NoDoubleUnderscore(s: string) {
    forall i :: 0 <= i < |s| - 1 ==> !(s[i] == '_' && s[i + 1] == '_')
  }

  /** The strings that formatHeader can produce. */
  predicate IsColumnName(s: string) {
    (forall i :: 0 <= i < |s| ==> IsNameChar(s[i])) && NoDoubleUnderscore(s)
  }

  /** `replaceAll("[^A-Za-z0-9_]", "_")` */
  function ReplaceNonWordChars(s: string): string {
    seq(|s|, i requires 0 <= i < |s| => if IsWordChar(s[i]) then s[i] else '_')
  }

  /** `replaceAll("_{2,}", "_")`: each maximal run of underscores keeps one. */
  function CollapseUnderscores(s: string): string
    decreases |s|
  {
    if |s| <= 1 then s
    else if s[0] == '_' && s[1] == '_' then CollapseUnderscores(s[1..])
    else [s[0]] + CollapseUnderscores(s[1..])
  }

  function LowerAscii(c: char): char {
    if 'A' <= c <= 'Z' then (c as int - 'A' as int + 'a' as int) as char else c
  }

  /** `toLowerCase()`, which only meets ASCII letters here. */
  function LowerCase(s: string): string {
    seq(|s|, i requires 0 <= i < |s| => LowerAscii(s[i]))
  }

  /** formatHeader: null gives the empty string; every other result is a column name. */
  function FormatHeader(headerValue: Option<string>): (name: string)
    ensures headerValue.None? ==> name == ""
    ensures IsColumnName(name)
    ensures headerValue.Some? ==> |name| <= |headerValue.value|
  {
    match headerValue
    case None => ""
    case Some(text) =>
      var replaced := ReplaceNonWordChars(text);
      var collapsed := CollapseUnderscores(replaced);
      CollapseUnderscoresFacts(replaced);
      LowerCaseKeepsName(collapsed);
      LowerCase(collapsed)
  }

  /** Collapsing never lengthens, never adds a character, keeps the first one, and leaves no `__`. */
  lemma {:induction false} CollapseUnderscoresFacts(s: string)
    ensures |CollapseUnderscores(s)| <= |s|
    ensures forall k :: 0 <= k < |CollapseUnderscores(s)| ==> CollapseUnderscores(s)[k] in s
    ensures |s| > 0 ==> |CollapseUnderscores(s)| > 0 && CollapseUnderscores(s)[0] == s[0]
    ensures NoDoubleUnderscore(CollapseUnderscores(s))
    decreases |s|
  {
    if |s| > 1 {
      var rest := CollapseUnderscores(s[1..]);
      CollapseUnderscoresFacts(s[1..]);
      forall k | 0 <= k < |rest| ensures rest[k] in s {
        assert rest[k] in s[1..];
      }
      if !(s[0] == '_' && s[1] == '_') {
        var r := [s[0]] + rest;
        assert r == CollapseUnderscores(s);
        forall i | 0 <= i < |r| - 1 ensures !(r[i] == '_' && r[i + 1] == '_') {
          if i > 0 {
            assert r[i] == rest[i - 1] && r[i + 1] == rest[i];
          }
        }
      }
    }
  }

  /** A string without `__` is left alone by the collapsing pass. */
  lemma {:induction false} CollapseUnderscoresKeeps(s: string)
    requires NoDoubleUnderscore(s)
    ensures CollapseUnderscores(s) == s
    decreases |s|
  {
    if |s| > 1 {
      assert NoDoubleUnderscore(s[1..]) by {
        forall i | 0 <= i < |s[1..]| - 1 ensures !(s[1..][i] == '_' && s[1..][i + 1] == '_') {
          assert s[1..][i] == s[i + 1] && s[1..][i + 1] == s[i + 2];
        }
      }
      CollapseUnderscoresKeeps(s[1..]);
      assert !(s[0] == '_' && s[1] == '_');
      assert [s[0]] + s[1..] == s;
    }
  }

  /** Lower-casing a string of word characters without `__` gives a column name. */
  lemma LowerCaseKeepsName(s: string)
    requires forall k :: 0 <= k < |s| ==> IsWordChar(s[k])
    requires NoDoubleUnderscore(s)
    ensures IsColumnName(LowerCase(s))
  {
    var r := LowerCase(s);
    forall i | 0 <= i < |r| - 1 ensures !(r[i] == '_' && r[i + 1] == '_') {
      assert r[i] == LowerAscii(s[i]) && r[i + 1] == LowerAscii(s[i + 1]);
    }
  }

  /**
    A column name is a fixed point of formatHeader, and only a column name is:
    the result is unchanged exactly when the input was already a column name.
   */
  lemma FormatHeaderFixesExactlyColumnNames(s: string)
    ensures FormatHeader(Some(s)) == s <==> IsColumnName(s)
  {
    if IsColumnName(s) {
      var replaced := ReplaceNonWordChars(s);
      assert replaced == s;
      CollapseUnderscoresKeeps(s);
      assert LowerCase(s) == s;
    }
  }

  /** formatHeader is idempotent. */
  lemma FormatHeaderIdempotent(s: Option<string>)
    ensures FormatHeader(Some(FormatHeader(s))) == FormatHeader(s)
  {
    FormatHeaderFixesExactlyColumnNames(FormatHeader(s));
  }

  /**
    The collapsing pass works piece by piece on two pieces that do not split
    a run of underscores.
   */
  lemma {:induction false} CollapseUnderscoresConcat(a: string, b: string)
    requires a != [] && b != [] && !(a[|a| - 1] == '_' && b[0] == '_')
    ensures CollapseUnderscores(a + b) == CollapseUnderscores(a) + CollapseUnderscores(b)
    decreases |a|
  {
    var ab := a + b;
    assert ab[0] == a[0];
    if |a| == 1 {
      assert ab[1..] == b;
    } else {
      assert ab[1] == a[1];
      assert ab[1..] == a[1..] + b;
      CollapseUnderscoresConcat(a[1..], b);
    }
  }

  /** Trailing punctuation becomes a single `_`. */
  lemma FormatHeaderClicks()
    ensures FormatHeader(Some("Clicks!!")) == "clicks_"
  {
    assert ReplaceNonWordChars("Clicks!!") == "Clicks__";
    ClicksCollapsed();
    assert LowerCase("Clicks_") == "clicks_";
  }

  lemma ClicksCollapsed()
    ensures CollapseUnderscores("Clicks__") == "Clicks_"
  {
    CollapseUnderscoresKeeps("Clicks");
    assert CollapseUnderscores("__") == "_";
    CollapseUnderscoresConcat("Clicks", "__");
    assert "Clicks" + "__" == "Clicks__" && "Clicks" + "_" == "Clicks_";
  }

  /** Surrounding blanks and the parentheses collapse to single underscores. */
  lemma FormatHeaderCost()
    ensures FormatHeader(Some("  Cost (USD)  ")) == "_cost_usd_"
  {
    CostReplaced();
    CostCollapsed();
    CostLowered();
    FormatHeaderChain("  Cost (USD)  ", "__Cost__USD___", "_Cost_USD_", "_cost_usd_");
  }

  /** formatHeader as its three passes, each given by its result. */
  lemma FormatHeaderChain(text: string, replaced: string, collapsed: string, lowered: string)
    requires ReplaceNonWordChars(text) == replaced
    requires CollapseUnderscores(replaced) == collapsed
    requires LowerCase(collapsed) == lowered
    ensures FormatHeader(Some(text)) == lowered
  {
  }

  lemma CostLowered()
    ensures LowerCase("_Cost_USD_") == "_cost_usd_"
  {
    var l := LowerCase("_Cost_USD_");
    forall i | 0 <= i < 10 ensures l[i] == "_cost_usd_"[i] {
    }
  }

  lemma CostReplaced()
    ensures ReplaceNonWordChars("  Cost (USD)  ") == "__Cost__USD___"
  {
    var r := ReplaceNonWordChars("  Cost (USD)  ");
    assert |r| == 14;
    forall i | 0 <= i < 14 ensures r[i] == "__Cost__USD___"[i] {
    }
  }

  lemma CostCollapsed()
    ensures CollapseUnderscores("__Cost__USD___") == "_Cost_USD_"
  {
    CostTailCollapsed();
    assert CollapseUnderscores("__") == "_";
    CollapseUnderscoresConcat("__", "Cost__USD___");
    CostGlue();
  }

  /** Literal concatenations, kept apart from their callers, where the solver would unfold the collapse on them. */
  lemma CostGlue()
    ensures "__" + "Cost__USD___" == "__Cost__USD___"
    ensures "_" + "Cost_USD_" == "_Cost_USD_"
  {
  }

  lemma CostTailCollapsed()
    ensures CollapseUnderscores("Cost__USD___") == "Cost_USD_"
  {
    UnderscoreUsdCollapsed();
    assert CollapseUnderscores("Cost") == "Cost";
    CollapseUnderscoresConcat("Cost", "__USD___");
    CostTailGlue();
  }

  lemma CostTailGlue()
    ensures "Cost" + "__USD___" == "Cost__USD___"
    ensures "Cost" + "_USD_" == "Cost_USD_"
  {
  }

  lemma UnderscoreUsdCollapsed()
    ensures CollapseUnderscores("__USD___") == "_USD_"
  {
    UsdCollapsed();
    assert CollapseUnderscores("__") == "_";
    CollapseUnderscoresConcat("__", "USD___");
    assert "__" + "USD___" == "__USD___";
  }

  lemma UsdCollapsed()
    ensures CollapseUnderscores("USD___") == "USD_"
  {
    assert CollapseUnderscores("USD") == "USD";
    assert CollapseUnderscores("___") == "_";
    CollapseUnderscoresConcat("USD", "___");
    assert "USD" + "___" == "USD___";
  }
}
