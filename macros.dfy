/** The fixed Confluence storage-format fragments that the translator's
    visitors emit for admonitions, anchors, code blocks and attachment
    links, and the attribute logic that chooses between them. */
module Macros {
  import opened PyStrings
  import opened Docutils

  /** `<ac:parameter ac:name="name">value</ac:parameter>` */
  function Param(name: string, value: string): string {
    ParamPrefix(name) + value + "</ac:parameter>"
  }

  function ParamPrefix(name: string): string {
    "<ac:parameter ac:name=\"" + name + "\">"
  }

  // ---------------------------------------------------------------------
  // Admonitions

  /** The docutils admonition kinds the translator renames. */
  const AdmonitionTable: map<string, string> := map[
    "note" := "info",
    "warning" := "note",
    "attention" := "note",
    "hint" := "tip",
    "tip" := "tip",
    "important" := "warning",
    "error" := "warning",
    "danger" := "warning"
  ]

  /** The Confluence macro an admonition of kind `name` becomes. */
  function AdmonitionType(name: string): (r: string)
    ensures r in {"info", "note", "tip", "warning"}
    ensures name !in AdmonitionTable ==> r == "info"
    ensures name in {"important", "error", "danger"} ==> r == "warning"
    ensures name in {"warning", "attention"} ==> r == "note"
    ensures name in {"hint", "tip"} ==> r == "tip"
    ensures name == "note" ==> r == "info"
  {
    if name in AdmonitionTable then AdmonitionTable[name] else "info"
  }

  /** The opening wrapper of an admonition macro named `macro`. */
  function AdmonitionOpen(macro: string): string {
    "            <ac:structured-macro ac:name=\"" + macro + "\">\n"
    + "              <ac:parameter ac:name=\"icon\">true</ac:parameter>\n"
    + "              <ac:parameter ac:name=\"title\"></ac:parameter>\n"
    + "              <ac:rich-text-body>\n"
    + "        "
  }

  /** The opening wrapper names the macro on its first line. */
  lemma AdmonitionOpenName(macro: string)
    ensures StartsWith(AdmonitionOpen(macro), "            <ac:structured-macro ac:name=\"" + macro + "\">\n")
  {
    var line := "            <ac:structured-macro ac:name=\"" + macro + "\">\n";
    var icon := "              <ac:parameter ac:name=\"icon\">true</ac:parameter>\n";
    var title := "              <ac:parameter ac:name=\"title\"></ac:parameter>\n";
    var body := "              <ac:rich-text-body>\n";
    StartsWithSelf(line);
    StartsWithAppend(line, line, icon);
    StartsWithAppend(line + icon, line, title);
    StartsWithAppend(line + icon + title, line, body);
    StartsWithAppend(line + icon + title + body, line, "        ");
  }

  /** The closing wrapper, the same for every admonition. */
  const AdmonitionClose: string :=
    "\n"
    + "              </ac:rich-text-body>\n"
    + "            </ac:structured-macro>\n\n"
    + "        "

  // ---------------------------------------------------------------------
  // Anchors

  /** The anchor macro with identifier `link`. */
  function AnchorMacro(link: string): string {
    "\n"
    + "            <ac:structured-macro ac:name=\"anchor\">\n"
    + "              <ac:parameter ac:name=\"\">" + link + "</ac:parameter>\n"
    + "            </ac:structured-macro>\n"
    + "        "
  }

  /** The identifier of the anchor a target node emits, if any: a target
      emits one only when it has `refid` or `refname`, and then takes
      `refuri` first, `refid` second and `refname` last. */
  function TargetLink(attrs: map<string, string>): (r: Option<string>)
    ensures r.Some? <==> "refid" in attrs || "refname" in attrs
    ensures r.Some? && "refuri" in attrs ==> r.value == attrs["refuri"]
    ensures r.Some? && "refuri" !in attrs && "refid" in attrs ==> r.value == attrs["refid"]
    ensures r.Some? && "refuri" !in attrs && "refid" !in attrs ==> r.value == attrs["refname"]
  {
    if "refid" in attrs || "refname" in attrs then
      if "refuri" in attrs then Some(attrs["refuri"])
      else if "refid" in attrs then Some(attrs["refid"])
      else Some(attrs["refname"])
    else None
  }

  // ---------------------------------------------------------------------
  // Code blocks

  /** The highlighters the Confluence code macro accepts. */
  const CodeLanguages: seq<string> := [
    "actionscript3", "bash", "csharp", "coldfusion", "cpp", "css", "delphi", "diff", "erlang",
    "groovy", "html/xml", "java", "javafx", "javascript", "none", "perl", "php", "powershell",
    "python", "ruby", "scala", "sql", "vb"]

  /** The language a code block ends up with: its own when Confluence knows
      it, `none` otherwise (which is also what `collapse` becomes). */
  function CodeLanguage(language: string): (r: string)
    ensures r in CodeLanguages
    ensures language in CodeLanguages ==> r == language
    ensures language !in CodeLanguages ==> r == "none"
  {
    if language in CodeLanguages then language else "none"
  }

  /** The `language` attribute after `visit_literal_block` has replaced an
      unknown language by `none`. */
  function FixLanguage(attrs: map<string, string>): (r: map<string, string>)
    ensures r.Keys == attrs.Keys
    ensures forall k :: k in attrs && k != "language" ==> r[k] == attrs[k]
    ensures "language" in attrs ==> r["language"] == CodeLanguage(attrs["language"])
  {
    if "language" in attrs && attrs["language"] !in CodeLanguages then attrs["language" := "none"]
    else attrs
  }

  /** A piece of the code macro: the opening tag, a named parameter, the
      CDATA-wrapped body, or the closing tag. */
  datatype CodePart = Open | Parameter(name: string, value: string) | Body(rawsource: string) | Close

  /** The markup of one piece. */
  function RenderPart(p: CodePart): string {
    match p
    case Open => "<ac:structured-macro ac:name=\"code\">"
    case Parameter(name, value) => Param(name, value)
    case Body(rawsource) => "<ac:plain-text-body><![CDATA[" + rawsource + "]]></ac:plain-text-body>"
    case Close => "</ac:structured-macro>"
  }

  function RenderParts(parts: seq<CodePart>): (r: seq<string>)
    ensures |r| == |parts|
    ensures forall i :: 0 <= i < |parts| ==> r[i] == RenderPart(parts[i])
  {
    if |parts| == 0 then [] else [RenderPart(parts[0])] + RenderParts(parts[1..])
  }

  /** The caption a code block shows: its `caption` attribute when that is
      present and not empty. */
  function Caption(attrs: map<string, string>): Option<string> {
    if "caption" in attrs && attrs["caption"] != "" then Some(attrs["caption"]) else None
  }

  function Language(attrs: map<string, string>): Option<string> {
    if "language" in attrs then Some(attrs["language"]) else None
  }

  /** The optional parameters of the code macro, in order. */
  function OptionalParams(language: Option<string>, linenos: bool, caption: Option<string>): seq<CodePart> {
    (if language == Some("collapse") then [Parameter("collapse", "true")] else [])
    + (if language.Some? then [Parameter("language", CodeLanguage(language.value))] else [])
    + (if linenos then [Parameter("linenumbers", "true")] else [])
    + (if caption.Some? then [Parameter("title", caption.value)] else [])
  }

  /** The pieces of the code macro, in emission order. */
  function CodeMacroParts(language: Option<string>, linenos: bool, caption: Option<string>,
                          rawsource: string): seq<CodePart>
  {
    [Open] + OptionalParams(language, linenos, caption) + [Body(rawsource), Close]
  }

  /** The markup of the code macro. */
  function CodeMacro(language: Option<string>, linenos: bool, caption: Option<string>,
                     rawsource: string): string
  {
    Concat(RenderParts(CodeMacroParts(language, linenos, caption, rawsource)))
  }

  /** The values of the parameters named `name`, in order. */
  function ParamsNamed(parts: seq<CodePart>, name: string): (r: seq<string>)
    ensures |r| <= |parts|
  {
    if |parts| == 0 then []
    else
      var rest := ParamsNamed(parts[1..], name);
      if parts[0].Parameter? && parts[0].name == name then [parts[0].value] + rest else rest
  }

  lemma {:induction false} ParamsNamedAppend(a: seq<CodePart>, b: seq<CodePart>, name: string)
    ensures ParamsNamed(a + b, name) == ParamsNamed(a, name) + ParamsNamed(b, name)
  {
    if |a| == 0 {
      assert a + b == b;
    } else {
      assert (a + b)[1..] == a[1..] + b;
      ParamsNamedAppend(a[1..], b, name);
    }
  }

  lemma ParamsNamedSingle(p: CodePart, name: string)
    ensures ParamsNamed([p], name) == if p.Parameter? && p.name == name then [p.value] else []
  {
    assert [p][1..] == [];
  }

  /** An optional parameter, filtered by name. */
  lemma OptionalNamed(present: bool, other: string, value: string, name: string)
    ensures ParamsNamed(if present then [Parameter(other, value)] else [], name)
         == if present && other == name then [value] else []
  {
    if present { ParamsNamedSingle(Parameter(other, value), name); }
  }

  /** Filtering the optional parameters by name keeps the ones of that name. */
  lemma OptionalParamsNamed(language: Option<string>, linenos: bool, caption: Option<string>, name: string)
    ensures ParamsNamed(OptionalParams(language, linenos, caption), name) ==
      (if language == Some("collapse") && name == "collapse" then ["true"] else [])
      + (if language.Some? && name == "language" then [CodeLanguage(language.value)] else [])
      + (if linenos && name == "linenumbers" then ["true"] else [])
      + (if caption.Some? && name == "title" then [caption.value] else [])
  {
    var lang := if language.Some? then CodeLanguage(language.value) else "";
    var title := if caption.Some? then caption.value else "";
    var c := if language == Some("collapse") then [Parameter("collapse", "true")] else [];
    var l := if language.Some? then [Parameter("language", lang)] else [];
    var n := if linenos then [Parameter("linenumbers", "true")] else [];
    var t := if caption.Some? then [Parameter("title", title)] else [];
    ParamsNamedAppend(c + l + n, t, name);
    ParamsNamedAppend(c + l, n, name);
    ParamsNamedAppend(c, l, name);
    OptionalNamed(language == Some("collapse"), "collapse", "true", name);
    OptionalNamed(language.Some?, "language", lang, name);
    OptionalNamed(linenos, "linenumbers", "true", name);
    OptionalNamed(caption.Some?, "title", title, name);
  }

  /** Filtering the pieces of the code macro filters its optional
      parameters: the opening, the body and the closing carry none. */
  lemma CodeMacroFilter(language: Option<string>, linenos: bool, caption: Option<string>,
                        rawsource: string, name: string)
    ensures ParamsNamed(CodeMacroParts(language, linenos, caption, rawsource), name) ==
      (if language == Some("collapse") && name == "collapse" then ["true"] else [])
      + (if language.Some? && name == "language" then [CodeLanguage(language.value)] else [])
      + (if linenos && name == "linenumbers" then ["true"] else [])
      + (if caption.Some? && name == "title" then [caption.value] else [])
  {
    var opt := OptionalParams(language, linenos, caption);
    var tail := [Body(rawsource), Close];
    ParamsNamedAppend([Open] + opt, tail, name);
    ParamsNamedAppend([Open], opt, name);
    ParamsNamedAppend([Body(rawsource)], [Close], name);
    assert tail == [Body(rawsource)] + [Close];
    ParamsNamedSingle(Open, name);
    ParamsNamedSingle(Body(rawsource), name);
    ParamsNamedSingle(Close, name);
    OptionalParamsNamed(language, linenos, caption, name);
  }

  /** A code block has one title parameter, the caption, when it has a
      caption, and none otherwise. */
  lemma CodeMacroTitle(language: Option<string>, linenos: bool, caption: Option<string>, rawsource: string)
    ensures ParamsNamed(CodeMacroParts(language, linenos, caption, rawsource), "title")
         == if caption.Some? then [caption.value] else []
  {
    CodeMacroFilter(language, linenos, caption, rawsource, "title");
  }

  /** A code block with a language has one language parameter, whose value
      is on the allow-list: the block's own language when listed, `none`
      otherwise. One without a language has none. */
  lemma CodeMacroLanguage(language: Option<string>, linenos: bool, caption: Option<string>, rawsource: string)
    ensures var values := ParamsNamed(CodeMacroParts(language, linenos, caption, rawsource), "language");
            && (language.None? ==> values == [])
            && (language.Some? && language.value in CodeLanguages ==> values == [language.value])
            && (language.Some? && language.value !in CodeLanguages ==> values == ["none"])
  {
    CodeMacroFilter(language, linenos, caption, rawsource, "language");
  }

  /** Line numbers are requested exactly when the block asks for them. */
  lemma CodeMacroLineNumbers(language: Option<string>, linenos: bool, caption: Option<string>, rawsource: string)
    ensures ParamsNamed(CodeMacroParts(language, linenos, caption, rawsource), "linenumbers")
         == if linenos then ["true"] else []
  {
    CodeMacroFilter(language, linenos, caption, rawsource, "linenumbers");
  }

  /** Only the `collapse` language gives the collapse parameter. */
  lemma CodeMacroCollapse(language: Option<string>, linenos: bool, caption: Option<string>, rawsource: string)
    ensures ParamsNamed(CodeMacroParts(language, linenos, caption, rawsource), "collapse")
         == if language == Some("collapse") then ["true"] else []
  {
    CodeMacroFilter(language, linenos, caption, rawsource, "collapse");
  }

  /** The macro opens and closes with the fixed tags, carries the raw source
      verbatim just before the closing tag, and has nothing else but
      parameters in between; every parameter name is one of the four, in the
      order collapse, language, linenumbers, title. A `collapse` language
      gives the collapse flag followed by language `none`. */
  lemma CodeMacroShape(language: Option<string>, linenos: bool, caption: Option<string>,
                       rawsource: string)
    ensures var parts := CodeMacroParts(language, linenos, caption, rawsource);
      && 3 <= |parts| <= 7
      && parts[0] == Open
      && parts[|parts| - 2] == Body(rawsource)
      && parts[|parts| - 1] == Close
      && (forall i :: 1 <= i < |parts| - 2 ==> parts[i].Parameter?)
      && (forall i, j :: 1 <= i < j < |parts| - 2 ==> ParamRank(parts[i].name) < ParamRank(parts[j].name))
      && (language == Some("collapse") ==>
            parts[1] == Parameter("collapse", "true") && parts[2] == Parameter("language", "none"))
  {
    assert "collapse" !in CodeLanguages;
    var opt := OptionalParams(language, linenos, caption);
    var parts := CodeMacroParts(language, linenos, caption, rawsource);
    assert parts == [Open] + opt + [Body(rawsource), Close];
    forall i | 1 <= i < |parts| - 2 ensures parts[i] == opt[i - 1] { }
    OptionalParamsRanked(language, linenos, caption);
  }

  /** The position of a parameter in the fixed order. */
  function ParamRank(name: string): nat {
    if name == "collapse" then 0 else if name == "language" then 1 else if name == "linenumbers" then 2 else 3
  }

  lemma OptionalParamsRanked(language: Option<string>, linenos: bool, caption: Option<string>)
    ensures var opt := OptionalParams(language, linenos, caption);
            && (forall i :: 0 <= i < |opt| ==> opt[i].Parameter?)
            && (forall i, j :: 0 <= i < j < |opt| ==> ParamRank(opt[i].name) < ParamRank(opt[j].name))
  {
    var opt := OptionalParams(language, linenos, caption);
    var c := if language == Some("collapse") then [Parameter("collapse", "true")] else [];
    var l := if language.Some? then [Parameter("language", CodeLanguage(language.value))] else [];
    var n := if linenos then [Parameter("linenumbers", "true")] else [];
    var t := if caption.Some? then [Parameter("title", caption.value)] else [];
    assert opt == c + l + n + t;
    forall i | 0 <= i < |opt|
      ensures opt[i].Parameter? && ParamRank(opt[i].name) == Block(i, |c|, |l|, |n|)
    {
      if i < |c| { assert opt[i] == c[i]; }
      else if i < |c| + |l| { assert opt[i] == l[i - |c|]; }
      else if i < |c| + |l| + |n| { assert opt[i] == n[i - |c| - |l|]; }
      else { assert opt[i] == t[i - |c| - |l| - |n|]; }
    }
  }

  /** Which of four consecutive blocks of sizes `a`, `b`, `d` and at most one
      an index falls into. */
  function Block(i: nat, a: nat, b: nat, d: nat): nat {
    if i < a then 0 else if i < a + b then 1 else if i < a + b + d then 2 else 3
  }

  // ---------------------------------------------------------------------
  // Attachment links

  /** `str()` of a child: a text run is its own text; an element's
      rendering is given by `render`. */
  function ChildString(c: Child, render: Child -> string): string {
    match c
    case TextNode(t) => t
    case ElementNode(_, _) => render(c)
  }

  /** The link text of a download reference: the first child's first child,
      when both exist. */
  function DownloadText(children: seq<Child>, render: Child -> string): (r: Option<string>)
    ensures r.Some? <==> |children| > 0 && |ChildrenOf(children[0])| > 0
    ensures (|children| > 0 && children[0].ElementNode? && |children[0].children| > 0
             && children[0].children[0].TextNode?) ==> r == Some(children[0].children[0].text)
  {
    if |children| > 0 && |ChildrenOf(children[0])| > 0 then
      Some(ChildString(ChildrenOf(children[0])[0], render))
    else None
  }

  /** The attachment link a download reference becomes. */
  function DownloadLink(filename: string, text: Option<string>): string {
    Concat([
      "<ac:link>",
      "<ri:attachment ri:filename=\"" + filename + "\" />",
      "<ac:plain-text-link-body>",
      if text.Some? then "<![CDATA[" + text.value + "]]>" else "",
      "</ac:plain-text-link-body>",
      "</ac:link>"])
  }
}
