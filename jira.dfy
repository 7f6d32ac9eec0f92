/** The `jira-issues` directive: a Confluence Jira Issues macro whose
    parameters are the directive's options, with their names converted
    from `snake_case` to `camelCase`, and the JQL query given as the
    directive's argument. */
module Jira {
  import opened PyStrings
  import opened Macros

  // ---------------------------------------------------------------------
  // underscore_to_camelcase

  /** `word.title()` for each word. */
  function TitleWords(words: seq<string>): (r: seq<string>)
    ensures |r| == |words|
    ensures forall i :: 0 <= i < |r| ==> r[i] == Title(words[i])
  {
    if |words| == 0 then [] else [Title(words[0])] + TitleWords(words[1..])
  }

  /** `underscore_to_camelcase`: the `_`-separated words of `text`, the
      first kept as it is and every later one title-cased, joined without
      separator. The result has no `_`, starts with the first word, and
      holds no non-letter `text` does not hold. */
  function UnderscoreToCamelcase(text: string): (r: string)
    ensures '_' !in r
    ensures StartsWith(r, Split(text, '_')[0])
    ensures forall c :: !IsLetter(c) && c in r ==> c in text
    ensures '_' !in text ==> r == text
  {
    var words := Split(text, '_');
    TitleWordsAvoid(words, text);
    words[0] + Concat(TitleWords(words[1..]))
  }

  /** The title-cased later words hold no `_` and no non-letter the text
      does not hold. */
  lemma TitleWordsAvoid(words: seq<string>, text: string)
    requires words == Split(text, '_')
    ensures forall c :: !IsLetter(c) && c in words[0] ==> c in text
    ensures forall c :: (c == '_' || (!IsLetter(c) && c !in text)) ==> c !in Concat(TitleWords(words[1..]))
    ensures '_' !in text ==> words == [text]
  {
    if '_' !in text { SplitNoSeparator(text, '_'); }
    ConcatSplit(text, '_');
    ConcatKeeps(words, 0);
    forall c | c == '_' || (!IsLetter(c) && c !in text)
      ensures c !in Concat(TitleWords(words[1..]))
    {
      forall i | 1 <= i < |words| ensures c !in words[i] {
        if c != '_' && c in words[i] {
          ConcatKeeps(words, i);
          assert c in RemoveChar(text, '_');
          RemoveCharKeeps(text, '_', c);
        }
      }
      TitleWordsMiss(words[1..], c);
    }
    forall c | !IsLetter(c) && c in words[0] ensures c in text {
      assert c in RemoveChar(text, '_');
      RemoveCharKeeps(text, '_', c);
    }
  }

  /** Every character of a removal was in the original. */
  lemma RemoveCharKeeps(s: string, d: char, c: char)
    requires c in RemoveChar(s, d)
    ensures c in s
  {
    var i :| 0 <= i < |RemoveChar(s, d)| && RemoveChar(s, d)[i] == c;
  }

  /** Every character of a piece is in the concatenation. */
  lemma {:induction false} ConcatKeeps(parts: seq<string>, i: nat)
    requires i < |parts|
    ensures forall c :: c in parts[i] ==> c in Concat(parts)
  {
    if i > 0 {
      ConcatKeeps(parts[1..], i - 1);
      assert parts[1..][i - 1] == parts[i];
    }
  }

  /** Title-casing words that miss a non-letter keeps missing it. */
  lemma {:induction false} TitleWordsMiss(words: seq<string>, c: char)
    requires !IsLetter(c)
    requires forall i :: 0 <= i < |words| ==> c !in words[i]
    ensures c !in Concat(TitleWords(words))
  {
    if |words| > 0 {
      TitleWordsMiss(words[1..], c);
      var t := Title(words[0]);
      forall j | 0 <= j < |t| ensures t[j] != c {
        assert words[0][j] in words[0];
        assert ToLowerChar(t[j]) == ToLowerChar(words[0][j]);
      }
      assert TitleWords(words)[1..] == TitleWords(words[1..]);
    }
  }

  /** Camel-casing only drops the underscores and changes the case of
      letters: lower-cased, the result is the text without underscores,
      lower-cased. */
  lemma CamelcaseLowered(text: string)
    ensures Lower(UnderscoreToCamelcase(text)) == Lower(RemoveChar(text, '_'))
  {
    var words := Split(text, '_');
    ConcatSplit(text, '_');
    LowerAppend(words[0], Concat(TitleWords(words[1..])));
    LowerAppend(words[0], Concat(words[1..]));
    TitleWordsLowered(words[1..]);
    assert Concat(words) == words[0] + Concat(words[1..]);
  }

  lemma {:induction false} TitleWordsLowered(words: seq<string>)
    ensures Lower(Concat(TitleWords(words))) == Lower(Concat(words))
  {
    if |words| > 0 {
      TitleWordsLowered(words[1..]);
      assert TitleWords(words)[1..] == TitleWords(words[1..]);
      LowerAppend(Title(words[0]), Concat(TitleWords(words[1..])));
      LowerAppend(words[0], Concat(words[1..]));
      TitleLowered(words[0]);
    }
  }

  /** Title-casing a word after a letter lower-cases it. */
  lemma {:induction false} TitleAfterLowerWord(w: string)
    requires forall i :: 0 <= i < |w| ==> IsLowerChar(w[i])
    ensures TitleAfter(w, true) == w
  {
    if |w| > 0 {
      TitleAfterLowerWord(w[1..]);
      assert [w[0]] + w[1..] == w;
    }
  }

  /** Two lower-case words joined by `_` become the first word followed by
      the second with its initial upper-cased. */
  lemma CamelcaseTwoWords(a: string, b: string)
    requires '_' !in a && |b| > 0
    requires forall i :: 0 <= i < |b| ==> IsLowerChar(b[i])
    ensures UnderscoreToCamelcase(a + "_" + b) == a + [ToUpperChar(b[0])] + b[1..]
  {
    assert '_' !in b by {
      forall i | 0 <= i < |b| ensures b[i] != '_' { assert IsLowerChar(b[i]); }
    }
    SplitTwo(a, '_', b);
    TitleAfterLowerWord(b[1..]);
    assert Title(b) == [ToUpperChar(b[0])] + b[1..];
    assert TitleWords([b]) == [Title(b)];
    assert Concat([Title(b)]) == Title(b);
  }

  /** Each further `_`-separated word is appended title-cased: together
      with the `_`-free case this determines the result word by word. */
  lemma CamelcaseAppendWord(text: string, w: string)
    requires '_' !in w
    ensures UnderscoreToCamelcase(text + "_" + w) == UnderscoreToCamelcase(text) + Title(w)
  {
    assert text + "_" + w == text + ['_'] + w;
    SplitSnoc(text, '_', w);
    CamelWordsSnoc(Split(text, '_'), w);
  }

  /** The word-level step of `CamelcaseAppendWord`. */
  lemma CamelWordsSnoc(words: seq<string>, w: string)
    requires |words| > 0
    ensures var more := words + [w];
            more[0] + Concat(TitleWords(more[1..])) == words[0] + Concat(TitleWords(words[1..])) + Title(w)
  {
    var more := words + [w];
    assert more[1..] == words[1..] + [w];
    assert TitleWords(words[1..] + [w]) == TitleWords(words[1..]) + [Title(w)];
    ConcatSnoc(TitleWords(words[1..]), Title(w));
  }

  /** The option name of the example in the macro's documentation. */
  lemma MaximumIssues(option: string)
    requires option == "maximum_issues"
    ensures UnderscoreToCamelcase(option) == "maximumIssues"
  {
    var a, b := "maximum", "issues";
    assert option == a + "_" + b;
    MaximumIssuesWords(a, b);
    CamelcaseTwoWords(a, b);
    assert a + [ToUpperChar(b[0])] + b[1..] == "maximumIssues" by {
      assert ToUpperChar(b[0]) == 'I' && b[1..] == "ssues";
    }
  }

  lemma MaximumIssuesWords(a: string, b: string)
    requires a == "maximum" && b == "issues"
    ensures '_' !in a && |b| > 0
    ensures forall i :: 0 <= i < |b| ==> IsLowerChar(b[i])
  {
    forall i | 0 <= i < |a| ensures a[i] != '_' { }
    forall i | 0 <= i < |b| ensures IsLowerChar(b[i]) { }
  }

  // ---------------------------------------------------------------------
  // JiraIssuesDirective.run

  /** A `raw` node: markup passed through to the output in `format`. */
  datatype RawNode = RawNode(format: string, text: string)

  /** The opening tag of the Jira Issues macro, schema version 1. */
  const JiraOpen: string := "<ac:structured-macro" + " ac:name=\"jira\"" + " ac:schema-" + "version=\"1\">"
  const JiraClose: string := "</ac:structured-macro>"

  /** One parameter per option, in option order, named in camel case. */
  function OptionParams(options: seq<(string, string)>): (r: seq<string>)
    ensures |r| == |options|
    ensures forall i :: 0 <= i < |r| ==> r[i] == Param(UnderscoreToCamelcase(options[i].0), options[i].1)
  {
    if |options| == 0 then []
    else
      var last := options[|options| - 1];
      OptionParams(options[..|options| - 1]) + [Param(UnderscoreToCamelcase(last.0), last.1)]
  }

  /** The lines of the macro: the opening tag, the options, the query and
      the closing tag. */
  function JiraLines(options: seq<(string, string)>, argument: string): seq<string> {
    [JiraOpen] + OptionParams(options) + [Param("jqlQuery", argument)] + [JiraClose]
  }

  /** `JiraIssuesDirective.run`: the directive's one node, the macro lines
      joined by newlines as raw HTML. `options` is the directive's option
      dictionary in its iteration order, its values already converted to
      text. */
  method JiraIssuesRun(options: seq<(string, string)>, argument: string) returns (r: seq<RawNode>)
    ensures r == [RawNode("html", Join("\n", JiraLines(options, argument)))]
  {
    var result := [JiraOpen];
    for i := 0 to |options|
      invariant result == [JiraOpen] + OptionParams(options[..i])
    {
      var (name, value) := options[i];
      assert options[..i + 1][..i] == options[..i];
      result := result + [Param(UnderscoreToCamelcase(name), value)];
    }
    assert options[..|options|] == options;
    result := result + [Param("jqlQuery", argument)];
    result := result + [JiraClose];
    r := [RawNode("html", Join("\n", result))];
  }

  /** The opening and closing tags are single lines. */
  lemma TagsOneLine()
    ensures '\n' !in JiraOpen && '\n' !in JiraClose
  {
    var a, b, c, d := "<ac:structured-macro", " ac:name=\"jira\"", " ac:schema-", "version=\"1\">";
    assert forall j | 0 <= j < |a| :: a[j] != '\n';
    assert forall j | 0 <= j < |b| :: b[j] != '\n';
    assert forall j | 0 <= j < |c| :: c[j] != '\n';
    assert forall j | 0 <= j < |d| :: d[j] != '\n';
    assert forall j | 0 <= j < |JiraClose| :: JiraClose[j] != '\n';
  }

  /** A parameter whose name and value have no newline has none. */
  lemma ParamOneLine(name: string, value: string)
    requires '\n' !in name && '\n' !in value
    ensures '\n' !in Param(name, value)
  {
  }

  /** Where each piece sits among the macro's lines. */
  lemma JiraLinesAt(options: seq<(string, string)>, argument: string)
    ensures var lines := JiraLines(options, argument);
            |lines| == |options| + 3 &&
            lines[0] == JiraOpen &&
            (forall i :: 0 <= i < |options| ==>
               lines[i + 1] == Param(UnderscoreToCamelcase(options[i].0), options[i].1)) &&
            lines[|options| + 1] == Param("jqlQuery", argument) &&
            lines[|options| + 2] == JiraClose
  {
    var params := OptionParams(options);
    var lines := JiraLines(options, argument);
    forall i | 0 <= i < |options|
      ensures lines[i + 1] == Param(UnderscoreToCamelcase(options[i].0), options[i].1)
    {
      assert lines[i + 1] == params[i];
    }
  }

  /** No line of the macro holds a newline when no option and not the query
      does. */
  lemma JiraLinesOneLine(options: seq<(string, string)>, argument: string)
    requires forall i :: 0 <= i < |options| ==> '\n' !in options[i].0 && '\n' !in options[i].1
    requires '\n' !in argument
    ensures forall i :: 0 <= i < |JiraLines(options, argument)| ==> '\n' !in JiraLines(options, argument)[i]
  {
    var lines := JiraLines(options, argument);
    JiraLinesAt(options, argument);
    TagsOneLine();
    forall i | 0 <= i < |lines| ensures '\n' !in lines[i] {
      if 1 <= i <= |options| {
        ParamOneLine(UnderscoreToCamelcase(options[i - 1].0), options[i - 1].1);
      } else if i == |options| + 1 {
        ParamOneLine("jqlQuery", argument);
      }
    }
  }

  /** When no option and not the query holds a newline, the macro's lines
      read back from its text: the opening tag, option `i` as line `i + 1`,
      the query and the closing tag. */
  lemma JiraReadsBack(options: seq<(string, string)>, argument: string)
    requires forall i :: 0 <= i < |options| ==> '\n' !in options[i].0 && '\n' !in options[i].1
    requires '\n' !in argument
    ensures var lines := Split(Join("\n", JiraLines(options, argument)), '\n');
            |lines| == |options| + 3 &&
            lines[0] == JiraOpen &&
            (forall i :: 0 <= i < |options| ==>
               lines[i + 1] == Param(UnderscoreToCamelcase(options[i].0), options[i].1)) &&
            lines[|options| + 1] == Param("jqlQuery", argument) &&
            lines[|options| + 2] == JiraClose
  {
    JiraLinesOneLine(options, argument);
    SplitJoin(JiraLines(options, argument), '\n');
    JiraLinesAt(options, argument);
  }
}
