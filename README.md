# sphinx-confluence in Dafny

sphinx-confluence is a Sphinx extension that writes documentation pages in
Confluence storage format. Its HTML translator, `HTMLConfluenceTranslator`,
walks a docutils tree and appends storage-format markup to `body`. It pushes
closing text onto `context` and keeps a heading counter, `section_level`. A
class-level `TitlesCache` remembers each page's title: the first child of its
first top-level heading. Internal links are prefixed with that title.

Two more parts are modelled:
- `fix_references` is connected to Sphinx's `doctree-resolved` event. It
  attaches a registry page, found by `find_page`, to every relative link into
  another published page.
- The `jira_issues` directive emits a Jira Issues macro. Its options become
  parameters, with names turned into camel case by `underscore_to_camelcase`.

The model has nine modules, one per file:

- `PyStrings` (`strings.dfy`) holds the Python `str` operations the plugin
  uses, with CPython's behaviour for single-character separators, negative
  slice bounds and ASCII case mapping. It proves their split/join round trips.
- `Docutils` (`docutils.dfy`) holds the node model:
  - `Element` is a class whose `attrs` and `refpage` are updated in place;
  - its children are `Child` values;
  - `Page` is a registry descriptor;
  - the exceptions a visitor can raise become `Error`;
  - the walker's continue, skip and abort become `Signal`.
- `Titles` (`titles.dfy`) holds the `TitlesCache` class.
- `Macros` (`macros.dfy`) holds the fixed fragments:
  - the admonition table and wrappers;
  - the anchor macro;
  - the code macro, built from `CodePart` pieces;
  - the attachment link.
- `Images` (`images.dfy`) holds `imgtag`, with its lower-cased, sorted
  attribute dictionary, and the arguments `visit_image` passes to it.
- `References` (`references.dfy`) holds the `class`/`href` computation of
  `visit_reference`, including:
  - the title prefix and cloaked `mailto:` links;
  - the Bitbucket source-link rewrite, with its quirks kept;
  - the `refpage` override;
  - the section number.
- `Translator` (`translator.dfy`) holds the `HTMLConfluenceTranslator` class.
  Its visitor methods change `body`, `context`, `sectionLevel`, `inMailto` and
  the shared cache. Each states the new state in full.
- `Jira` (`jira.dfy`) holds `underscore_to_camelcase` and
  `JiraIssuesDirective.run`.
- `Resolver` (`resolver.dfy`) holds `find_page` and `fix_references`.

Several outside pieces are parameters. The model states its properties in
terms of them and assumes nothing about them:
- the inherited HTML translator, in a `Base` record: `attval`, `starttag`,
  `cloak_mailto`, `HTMLTranslator.visit_title` and `str()` of an element;
- `os.path.abspath(os.path.join(...))`, as `resolve`;
- `hash(document)`, as an integer key.

Some behaviours of the code are easy to misread:
- `set_title` is a plain dictionary store, so a later call overwrites. Only
  the guard in `visit_title`, which calls it when no title is cached, makes
  the first title win.
- The admonition table has four targets: info, note, tip and warning.
- A download reference without `filename` pushes `''` onto `context` and
  lets the walker descend into its children.
- A link such as `../other.rst#sec` gets the target `ther.rst#sec`, shown by
  `References.RefpageFileLink`. The target is the last `/`-segment of the
  refuri minus its first character. The link `../other/#sec` into the page
  served at `/wiki/other`, short title `Other`, gives `/wiki/other#Other-sec`,
  shown by `References.RefpageExample`.
- `nodes.reference` is itself a `nodes.TextElement`, so the "inside a
  reference" clause of the inline-image test (lines 217-219) adds nothing.
  `Images.ImageSuffix` states the test that remains.

## Model

| member | source | states |
|---|---|---|
| Titles.TitlesCache.constructor | sphinx_confluence/__init__.py:66-67 | the class-level dictionary starts empty |
| Titles.TitlesCache.SetTitle | sphinx_confluence/__init__.py:73-75 | the dictionary gets `document := title`: afterwards `has_title` holds and `get_title` returns the title; every other document's title is unchanged |
| Titles.TitlesCache.GetTitle | sphinx_confluence/__init__.py:77-83 | returns None exactly when `has_title` is false, and otherwise the stored title |
| Macros.AdmonitionType | sphinx_confluence/__init__.py:123-134 | the kind maps into {info, note, tip, warning}; every table entry gives its value; any unlisted kind, the default `''` included, gives info |
| Macros.AdmonitionOpenName | sphinx_confluence/__init__.py:136-143 | the opening wrapper's first line is the structured macro named after the admonition type |
| Translator.HTMLConfluenceTranslator.VisitAdmonition | sphinx_confluence/__init__.py:106-143 | appends exactly the opening wrapper of the mapped kind; nothing else changes |
| Translator.HTMLConfluenceTranslator.DepartAdmonition | sphinx_confluence/__init__.py:145-150 | always appends the same closing wrapper; nothing else changes |
| Images.CollectAttributes | sphinx_confluence/__init__.py:178-182 | the loop builds the dictionary `Collect` of the keyword arguments under lower-cased names, in sorted order |
| Images.CollectSpec | sphinx_confluence/__init__.py:178-182 | the collected dictionary is strictly sorted by name, its names are lower case, and each name holds the value of the last argument whose lower-cased name it is |
| Images.RenderAttributes | sphinx_confluence/__init__.py:183-199 | the loop fails exactly when an entry holds `None`; otherwise it gives one `ac:name="attval(value)"` part per entry in sorted order, list values space-joined |
| Images.CollectHasNoValue | sphinx_confluence/__init__.py:185-188 | the dictionary holds a `None` value exactly when some name's last argument was `None` |
| Images.ImgTag | sphinx_confluence/__init__.py:177-202 | the result is the `<ac:image …><ri:attachment ri:filename="…" /></ac:image>` element of the sorted parts plus the suffix, or else `AssertionError`; it fails exactly when some name's final value is `None` |
| Images.ImageAttributes | sphinx_confluence/__init__.py:205-215 | the arguments of `visit_image`: alt (defaulting to the uri), thumbnail `true`, then width and title when present; a node without `uri` gives `KeyError` |
| Images.ImageNamesOrdered | sphinx_confluence/__init__.py:182 | the names `alt`, `thumbnail`, `title` and `width` are in this order under Python's string comparison |
| Images.VisitImageAttributes | sphinx_confluence/__init__.py:179-182 | collecting the arguments of `visit_image` gives alt, thumbnail, title (when named), width (when given), in that order |
| Images.VisitImageSucceeds | sphinx_confluence/__init__.py:186-188 | `imgtag` never fails on the arguments `visit_image` passes |
| Images.VisitImageTag | sphinx_confluence/__init__.py:206-207 | the tag `visit_image` gets is the element for the base name of the uri with the sorted attributes; it never fails |
| Images.ImageSuffix | sphinx_confluence/__init__.py:217-223 | the suffix is empty exactly for an image inside a text element, and `\n` otherwise |
| Translator.HTMLConfluenceTranslator.VisitImage | sphinx_confluence/__init__.py:204-226 | without `uri` it raises `KeyError` and changes nothing; otherwise it pushes `''` onto context and appends the image element with the inline/block suffix, and lets the walker continue |
| Translator.HTMLConfluenceTranslator.VisitTitle | sphinx_confluence/__init__.py:228-239 | skips, caching the first child and appending nothing, exactly when the parent is a section, no title is cached and the level is 1 (raising `IndexError` if there is no child); otherwise it appends the base translator's title; once a title is cached every title goes to the base translator and the cache is unchanged |
| Macros.TargetLink | sphinx_confluence/__init__.py:259-266 | an anchor is emitted exactly when the target has `refid` or `refname`; its identifier is refuri, then refid, then refname |
| Translator.HTMLConfluenceTranslator.VisitTarget | sphinx_confluence/__init__.py:253-268 | appends the anchor macro of that identifier, or nothing |
| Macros.CodeLanguage | sphinx_confluence/__init__.py:298-303 | the language is on the 23-name allow-list; a listed language is kept, any other becomes `none` |
| Macros.FixLanguage | sphinx_confluence/__init__.py:302-303 | only `language` is rewritten, and only when it is not on the allow-list; the set of keys is unchanged |
| Macros.CodeMacroFilter | sphinx_confluence/__init__.py:291-314 | the parameters of each name in the code macro are exactly: collapse for a `collapse` language; the allow-listed language; line numbers when requested; the caption as title |
| Macros.CodeMacroTitle | sphinx_confluence/__init__.py:310-311 | a single title parameter, the caption, when the caption is present and non-empty; none otherwise |
| Macros.CodeMacroLanguage | sphinx_confluence/__init__.py:292-305 | no language parameter without a language; otherwise one, being the language when listed and `none` otherwise |
| Macros.CodeMacroLineNumbers | sphinx_confluence/__init__.py:307-308 | `linenumbers` is `true` exactly when `linenos` is set |
| Macros.CodeMacroCollapse | sphinx_confluence/__init__.py:295-296 | only the `collapse` language gives the collapse parameter |
| Macros.OptionalParamsRanked | sphinx_confluence/__init__.py:292-311 | the optional parameters appear in the fixed order collapse < language < linenumbers < title |
| Macros.CodeMacroShape | sphinx_confluence/__init__.py:291-314 | open tag first, the CDATA body with the raw source verbatim, then the close tag, last; only parameters in between, in rank order; `collapse` gives the collapse flag followed by language `none` |
| Translator.HTMLConfluenceTranslator.VisitLiteralBlock | sphinx_confluence/__init__.py:291-317 | rewrites the node's language in place, appends the code macro of the original language, line numbers, caption and raw source, and always skips |
| Macros.DownloadText | sphinx_confluence/__init__.py:334-336 | there is link text exactly when the first child has a child; for a text run it is that text |
| Translator.HTMLConfluenceTranslator.VisitDownloadReference | sphinx_confluence/__init__.py:330-348 | without `filename` it pushes `''` onto context, appends nothing and continues; with one it appends the attachment link and skips |
| Translator.HTMLConfluenceTranslator.VisitSection | sphinx_confluence/__init__.py:350-352 | the section level goes up by one and no markup is emitted |
| Translator.HTMLConfluenceTranslator.DepartSection | sphinx_confluence/__init__.py:354-356 | the section level goes down by one and no markup is emitted |
| References.FirstIndex | sphinx_confluence/__init__.py:374 | `list.index`: the position of the first occurrence, with none before it |
| References.RemoveSpaceChild | sphinx_confluence/__init__.py:374 | docutils' `Element.replace(' ', '')` removes the first direct child equal to `' '`, and raises `ValueError` exactly when there is none |
| References.RemoveSpaceChildCount | sphinx_confluence/__init__.py:374 | that removal takes out exactly one `' '` child and keeps every other child |
| References.TitlePrefix | sphinx_confluence/__init__.py:373-374 | an internal link with a cached text title gets `#` + the title with its spaces removed + `-`; with a cached element title it gets `#None-` when the element has a direct `' '` child and fails with `ValueError` when it has none; any other link gets nothing |
| References.ReplacedTitle | sphinx_confluence/__init__.py:370-386 | the cached title changes only for an internal reference with refuri or refid whose cached title is an element with a `' '` child, and then loses exactly one such child |
| References.ReplaceOnceThenFails | sphinx_confluence/__init__.py:373-386 | with a single `' '` child, the first internal link gets `#None-` and the next one fails with `ValueError` |
| References.LinkHref | sphinx_confluence/__init__.py:370-387 | the href is the prefix followed by refuri, or by refid when there is no refuri; with neither, `AssertionError`; a `mailto:` href is cloaked, and flagged, exactly when cloaking is on |
| References.MailtoHasNoPrefix | sphinx_confluence/__init__.py:373-377 | a prefixed href starts with `#`, so it is never a `mailto:` link |
| References.LinkClassWords | sphinx_confluence/__init__.py:365-369 | the class reads back as `reference`, then `internal` (internal or no refuri) or `external`, then `image-reference` outside a text element |
| References.BrowseAnchor | sphinx_confluence/__init__.py:414-419 | the source-link anchor fails with `IndexError` exactly when the path after `/browse/` has fewer than two segments |
| References.BrowseAnchorPy | sphinx_confluence/__init__.py:411-417 | a source URL `…/browse/` + the directories, `stem.py…` and a last segment gives the anchor of the directories, the stem and the last segment with every `#` removed, joined by `.` |
| References.BrowseAnchorNonPy | sphinx_confluence/__init__.py:411-417 | with a file name holding no `.py`, the file name loses its last character in that anchor |
| References.BrowseAnchorFragment | sphinx_confluence/__init__.py:411-417 | a last segment `#fragment` contributes the fragment: the anchor is the directories, the stem and the fragment, joined by `.` |
| References.BrowseAnchorWithoutBrowse | sphinx_confluence/__init__.py:414-415 | a URL without `/browse/` is read from its eighth character on (`find` gives -1), as if `/browse/` ended there |
| References.ViewcodeAnchor | sphinx_confluence/__init__.py:408-425 | with a refuri present, the anchor is the source-link anchor of a non-empty one and none for an empty one (reftitle is not consulted); with no refuri, it is a non-empty reftitle's text after its last `#`, else none |
| References.Viewcode | sphinx_confluence/__init__.py:397-430 | an href that is not a source link is kept; for a source link the new href is the segments from its first `https:` on (the `#Title-` prefix and all else before it dropped) minus the last one, and it emits its reference anchor (when non-empty), then the last segment minus its first character |
| References.PyStemFound | sphinx_confluence/__init__.py:418 | `find('.py')` in a file name whose stem has no dot is the stem's length |
| References.PyStemKept | sphinx_confluence/__init__.py:418 | the cut keeps the stem of a `.py` file |
| References.NonPyLosesLastCharacter | sphinx_confluence/__init__.py:418 | a file name without `.py` loses its last character (`find` gives -1) |
| References.RefuriTarget | sphinx_confluence/__init__.py:438-441 | the target taken from refuri is its base name (the text after its last `/`) minus its first character, so it ends the refuri and holds no `/`; it is empty for a missing or empty refuri |
| References.RefpageTarget | sphinx_confluence/__init__.py:436-446 | the refuri target when it is not empty; otherwise the text after the last `#` of reftitle when there is one; otherwise empty |
| References.RefpageHref | sphinx_confluence/__init__.py:448-451 | the href is `server_path + '#' + short_title + '-'` followed by the target |
| References.RefpageFragment | sphinx_confluence/__init__.py:438-451 | a refuri ending in `/#fragment` targets that fragment of the page |
| References.RefpageTitleFallback | sphinx_confluence/__init__.py:443-451 | with no usable refuri (none, empty, or a last segment of at most one character such as `../other/`), the section after the last `#` of reftitle is the target |
| References.RefpageExample | sphinx_confluence/__init__.py:433-451 | `../other/#sec` into the page `/wiki/other` titled `Other` gives `/wiki/other#Other-sec` |
| References.RefpageFileLink | sphinx_confluence/__init__.py:438-441 | `../other.rst#sec` targets `ther.rst#sec` |
| References.SecnumberReadsBack | sphinx_confluence/__init__.py:455-456 | the printed section number splits on `.` into the decimal strings of the section's numbers, and each piece's decimal value is that number |
| PyStrings.NatToStringValue | sphinx_confluence/__init__.py:456 | `str(n)` read back as a decimal number is `n` |
| References.ReferenceLink | sphinx_confluence/__init__.py:365-451 | the reference succeeds exactly when the href, the image-reference assertion and the source-link rewrite do; a failure raises the first failing step's exception, the image-reference one being `AssertionError`; the tag has class, href and (with reftitle) title; the href is the `refpage` one unless the rewritten href starts with `http` |
| References.InternalHref | sphinx_confluence/__init__.py:370-387 | an internal link with a cached text title has href `#title-` + refuri (or refid) and is not a mailto link |
| References.InternalLinkHref | sphinx_confluence/__init__.py:365-392 | such a link, not a source link and without refpage, emits no anchors and has that href |
| Translator.HTMLConfluenceTranslator.VisitReference | sphinx_confluence/__init__.py:358-456 | a cloaked mailto link sets `in_mailto`, and an element title loses the `' '` child its `replace` removes from the cache, even when a later check fails; a failure appends nothing; success appends the anchors, the start tag, and the section number when there is one |
| PyStrings.Basename | sphinx_confluence/__init__.py:207 | the base name holds no `/`, ends the path, and is either the whole path or preceded by a `/`: the text after the last `/` |
| PyStrings.Title | sphinx_confluence/__init__.py:632 | title-casing keeps the length and every non-letter; a letter is upper-cased at the start or after a non-letter and lower-cased after a letter |
| Jira.UnderscoreToCamelcase | sphinx_confluence/__init__.py:631-632 | the result has no `_`, starts with the first `_`-segment verbatim, holds no non-letter the text lacks, and is the text itself when there is no `_` |
| Jira.CamelcaseAppendWord | sphinx_confluence/__init__.py:632 | each further segment is appended title-cased: `f(t + "_" + w) == f(t) + w.title()` |
| Jira.CamelcaseLowered | sphinx_confluence/__init__.py:632 | lower-cased, the result is the text without underscores, lower-cased |
| Jira.CamelcaseTwoWords | sphinx_confluence/__init__.py:632 | two lower-case words joined by `_` give the first followed by the second with its initial upper-cased |
| Jira.MaximumIssues | sphinx_confluence/__init__.py:565 | `maximum_issues` becomes `maximumIssues` |
| Jira.OptionParams | sphinx_confluence/__init__.py:572-573 | one parameter per option, in option order, named in camel case |
| Jira.JiraIssuesRun | sphinx_confluence/__init__.py:568-582 | the one raw `html` node is the opening tag, the option parameters, `jqlQuery` = the argument and the closing tag, joined by newlines |
| Jira.TagsOneLine | sphinx_confluence/__init__.py:569-578 | the opening and closing tags hold no newline |
| Jira.JiraLinesAt | sphinx_confluence/__init__.py:569-578 | the lines are the opening tag, option `i` at `i + 1`, the query, then the closing tag |
| Jira.JiraReadsBack | sphinx_confluence/__init__.py:568-582 | when no option and not the query holds a newline, splitting the node's text on newlines gives back exactly those lines |
| Resolver.MatchesOne | sphinx_confluence/__init__.py:644 | a single-field test holds exactly when the page has that value |
| Resolver.FindPage | sphinx_confluence/__init__.py:642-647 | a found page is in the registry and matches every field; None exactly when no page matches |
| Resolver.FindPageFirst | sphinx_confluence/__init__.py:643-645 | the found page is the first match: no earlier page matches |
| Resolver.HomePage | sphinx_confluence/__init__.py:653-658 | the document's page is a registry page whose local path ends with the document name; None exactly when there is none |
| Resolver.HomePageFirst | sphinx_confluence/__init__.py:653-655 | that page is the first such page: no earlier page's local path ends with the document name |
| Resolver.FindHome | sphinx_confluence/__init__.py:653-658 | the loop finds that first page |
| Resolver.RelativeTarget | sphinx_confluence/__init__.py:662-670 | a link is rewritten exactly when its refuri starts with `..`, holds no `http` and has at least two `/`-segments |
| Resolver.RelativeTargetSegments | sphinx_confluence/__init__.py:670 | the rewritten path keeps the leading `..` segment and the order of the others, and drops every segment starting with `#` |
| Resolver.NewRefpage | sphinx_confluence/__init__.py:661-675 | a node's refpage changes only for such a reference, and then to the first page whose local path is the resolved path; when that page exists, it is what the node gets |
| Resolver.FixNode | sphinx_confluence/__init__.py:661-675 | one node's refpage becomes its new refpage; its attributes are unchanged |
| Resolver.FixReferences | sphinx_confluence/__init__.py:651-675 | nothing changes when no page belongs to the document; otherwise every node's refpage becomes its new refpage; no attribute is written |

## Left out

- `setup_config`, `publish_main`, `setup`, `get_path`, `JSONConfluenceBuilder` and its `LooseVersion` check: configuration loading, network publishing, Sphinx registration and theme paths, with nothing to model but foreign calls.
- `ImageConf.run`, `CaptionedCodeBlock.run` and `TocTree`: they depend on docutils and Sphinx directive machinery that is not part of this model.
- `JiraIssueRole`, `JiraUserRole` and `EmoteDirective`: fixed templates with one substitution.
- `true_false` and `static_dynamic`: thin wrappers over `directives.choice`. Option values reach `JiraIssuesRun` as text already converted.
- `visit_table`, `write_colspecs`, `unimplemented_visit`, `unknown_visit` and `depart_target`: they delegate to the foreign `starttag` or to the logger, or do nothing.
- The docutils tree walker and visitor dispatch. Each visitor that can skip or fail returns a `Signal`, and `fix_references` takes the traversed elements as a sequence in traversal order. Text nodes have the tagname `#text`, so they never match the `reference` test and are not in it.
- Logging in `fix_references` and the builder warnings: output only.
- `os.path.abspath`/`os.path.join` (the `resolve` parameter), `HTMLTranslator.starttag`, `attval`, `cloak_mailto`, `HTMLTranslator.visit_title` and `str()` of an element are parameters whose behaviour is not modelled. `visit_title`'s contribution is one appended string. What the base translator itself does to `context` is not modelled.
- `hash(document)` is an integer key supplied by the caller. Distinct documents with equal hashes would share a title, as in the source.
- Case mapping and title-casing follow ASCII only. Python's Unicode rules are not modelled.
- Python 2/3 `unicode`/`str` coercion in `imgtag`. Values are text, `None` or lists of text. A list value is space-joined, as under Python 2. Under Python 3 `unicode` is unbound outside the `try` at line 190, so a list value raises `NameError` there; the model does not capture that.
- Element attributes are strings in one map. The flags `internal` and `linenos` are fields of their own, read for their truth value as the source does. The list `secnumber` is a field too: a non-empty one is printed after the start tag.
- The messages of the assertion failures raised in `imgtag` and for an image reference are left empty.
- Translator.HTMLConfluenceTranslator.VisitImage: it computes the tag before pushing onto `context`, where the source pushes first. Nothing can observe the difference, because `imgtag` cannot fail on the arguments `visit_image` passes (`Images.VisitImageSucceeds`).
- References.SecnumberText: appends `secnumber_suffix` verbatim. The source uses the suffix inside a `%` format string (line 456), where `%%` prints one `%` and a lone `%` raises. The model assumes the suffix holds no `%`.
- The cached title element is the same object as the first child of the page's first heading, so `replace(' ', '')` also removes the `' '` child from the document tree. The model keeps titles as values and changes only the cache.
