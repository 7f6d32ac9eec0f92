/** The attribute computations of `visit_reference`: the `class` and `href`
    of the `<a>` start tag, the page-title prefix Confluence puts in front
    of in-page links, the Bitbucket source-link ("viewcode") rewrite, the
    `refpage` override for links into other wiki pages, and the section
    number printed after the tag. */
module References {
  import opened PyStrings
  import opened Docutils

  const RefAssertMessage: string := "References must have \"refuri\" or \"refid\" attribute."

  // ---------------------------------------------------------------------
  // href and class

  /** The text node a title element is searched for by `replace(' ', '')`:
      a `nodes.Text` is a string, so it equals `' '` exactly when its text
      is a single space. */
  const Space: Child := TextNode(" ")

  /** `list.index(x)`: the position of the first occurrence. */
  function FirstIndex(cs: seq<Child>, x: Child): (k: nat)
    requires x in cs
    ensures k < |cs| && cs[k] == x && x !in cs[..k]
  {
    if cs[0] == x then 0
    else
      var k := FirstIndex(cs[1..], x);
      assert cs[..k + 1] == [cs[0]] + cs[1..][..k];
      k + 1
  }

  /** The children after docutils' `Element.replace(' ', '')`: the first
      child equal to `' '` is replaced by the empty sequence of nodes, and
      `list.index` raises `ValueError` when there is none. */
  function RemoveSpaceChild(cs: seq<Child>): (r: Result<seq<Child>>)
    ensures r.Err? <==> Space !in cs
    ensures r.Err? ==> r.error == ValueError
    ensures r.Ok? ==> var k := FirstIndex(cs, Space); r.value == cs[..k] + cs[k + 1..]
  {
    if |cs| == 0 then Err(ValueError)
    else if cs[0] == Space then Ok(cs[1..])
    else
      match RemoveSpaceChild(cs[1..])
      case Err(e) => Err(e)
      case Ok(rest) =>
        var k := FirstIndex(cs[1..], Space);
        assert cs[..k + 1] + cs[k + 2..] == [cs[0]] + (cs[1..][..k] + cs[1..][k + 1..]);
        Ok([cs[0]] + rest)
  }

  /** Removal takes out exactly one `' '` child and keeps every other. */
  lemma RemoveSpaceChildCount(cs: seq<Child>)
    requires Space in cs
    ensures var r := RemoveSpaceChild(cs);
            r.Ok? && |r.value| == |cs| - 1 && multiset(r.value) + multiset{Space} == multiset(cs)
  {
    var k := FirstIndex(cs, Space);
    var a, b := cs[..k], cs[k + 1..];
    assert cs == a + [Space] + b;
    assert multiset(cs) == multiset(a) + multiset{Space} + multiset(b);
    assert multiset(a + b) == multiset(a) + multiset(b);
  }

  /** The page-title prefix of an internal link: `#` + the cached title
      with its spaces removed + `-`, or nothing when the link is external or
      no title is cached. A cached title that is an element rather than a
      text run goes through docutils' `Element.replace(' ', '')`, which
      returns `None`: the prefix is `#None-` when the element has a direct
      `' '` child, and `ValueError` is raised when it has none. */
  function TitlePrefix(internal: bool, title: Option<Child>): (r: Result<string>)
    ensures r.Err? <==> internal && title.Some? && title.value.ElementNode? && Space !in title.value.children
    ensures r.Err? ==> r.error == ValueError
    ensures r.Ok? ==> ' ' !in r.value
    ensures r.Ok? && r.value != "" ==> internal && title.Some? && r.value[0] == '#' && r.value[|r.value| - 1] == '-'
    ensures internal && title.Some? && title.value.TextNode? ==>
              r == Ok("#" + RemoveChar(title.value.text, ' ') + "-")
    ensures internal && title.Some? && title.value.ElementNode? && Space in title.value.children ==>
              r == Ok("#None-")
    ensures !internal || title.None? ==> r == Ok("")
  {
    if internal && title.Some? then
      match title.value
      case TextNode(t) => Ok("#" + RemoveChar(t, ' ') + "-")
      case ElementNode(_, cs) =>
        match RemoveSpaceChild(cs)
        case Err(e) => Err(e)
        case Ok(_) => Ok("#None-")
    else Ok("")
  }

  /** The cached title once the href of a reference is computed, when that
      computation changes it: `replace(' ', '')` is only reached for a
      reference with `refuri` or `refid`, and it removes a child in place
      only from an element title that has a `' '` child. A text title is an
      immutable string, so it never changes. */
  function ReplacedTitle(attrs: map<string, string>, internal: bool, title: Option<Child>): (r: Option<Child>)
    ensures r.Some? <==> ("refuri" in attrs || "refid" in attrs) && internal && title.Some? &&
                         title.value.ElementNode? && Space in title.value.children
    ensures r.Some? ==>
              r.value.ElementNode? && r.value.tagname == title.value.tagname &&
              |r.value.children| == |title.value.children| - 1 &&
              multiset(r.value.children) + multiset{Space} == multiset(title.value.children)
  {
    if ("refuri" in attrs || "refid" in attrs) && internal && title.Some? then
      match title.value
      case TextNode(_) => None
      case ElementNode(tag, cs) =>
        if Space in cs then
          RemoveSpaceChildCount(cs);
          Some(ElementNode(tag, RemoveSpaceChild(cs).value))
        else None
    else None
  }

  /** A title element with a single `' '` child gives the first internal
      link the prefix `#None-`, and leaves the cache holding an element
      without one, so the next internal link fails with `ValueError`. */
  lemma ReplaceOnceThenFails(attrs: map<string, string>, tag: string, cs: seq<Child>)
    requires "refuri" in attrs || "refid" in attrs
    requires multiset(cs)[Space] == 1
    ensures TitlePrefix(true, Some(ElementNode(tag, cs))) == Ok("#None-")
    ensures var t := ReplacedTitle(attrs, true, Some(ElementNode(tag, cs)));
            t.Some? && TitlePrefix(true, t) == Err(ValueError)
  {
    assert Space in cs;
    var t := ReplacedTitle(attrs, true, Some(ElementNode(tag, cs)));
    assert multiset(t.value.children)[Space] == 0;
  }

  /** The href before the viewcode and refpage rewrites, and whether it is
      a cloaked `mailto:` link (which sets `in_mailto`). */
  datatype Href = Href(href: string, mailto: bool)

  /** The href of a reference: the title prefix followed by `refuri`, or by
      `refid` when there is no `refuri`; a `mailto:` refuri is passed
      through `cloak` when address cloaking is on. */
  function LinkHref(attrs: map<string, string>, internal: bool, title: Option<Child>,
                    cloakEmails: bool, cloak: string -> string): (r: Result<Href>)
    ensures "refuri" !in attrs && "refid" !in attrs ==> r == Err(AssertionError(RefAssertMessage))
    ensures ("refuri" in attrs || "refid" in attrs) ==>
              (r.Err? <==> TitlePrefix(internal, title).Err?) &&
              (r.Err? ==> r.error == ValueError)
    ensures r.Ok? && !r.value.mailto ==>
              r.value.href == TitlePrefix(internal, title).value +
                              (if "refuri" in attrs then attrs["refuri"] else attrs["refid"])
    ensures r.Ok? && r.value.mailto ==>
              cloakEmails && "refuri" in attrs && StartsWith(attrs["refuri"], "mailto:") &&
              r.value.href == cloak(attrs["refuri"])
    ensures r.Ok? && "refuri" in attrs && cloakEmails && StartsWith(r.value.href, "mailto:") ==> r.value.mailto
  {
    if "refuri" in attrs then
      match TitlePrefix(internal, title)
      case Err(e) => Err(e)
      case Ok(prefix) =>
        var h := prefix + attrs["refuri"];
        if cloakEmails && StartsWith(h, "mailto:") then
          MailtoHasNoPrefix(prefix, attrs["refuri"]);
          Ok(Href(cloak(h), true))
        else Ok(Href(h, false))
    else if "refid" in attrs then
      match TitlePrefix(internal, title)
      case Err(e) => Err(e)
      case Ok(prefix) => Ok(Href(prefix + attrs["refid"], false))
    else Err(AssertionError(RefAssertMessage))
  }

  /** A prefixed href starts with `#`, so only an unprefixed one can be a
      `mailto:` link. */
  lemma MailtoHasNoPrefix(prefix: string, uri: string)
    requires prefix == "" || prefix[0] == '#'
    ensures prefix != "" ==> !StartsWith(prefix + uri, "mailto:")
    ensures prefix == "" ==> prefix + uri == uri
  {
    if prefix == "" {
      assert prefix + uri == uri;
    } else {
      assert (prefix + uri)[0] == '#';
    }
  }

  /** The words of the `class` attribute: `reference`, then `internal` for
      an internal link or one without `refuri` and `external` otherwise,
      then `image-reference` when the link is not inside a text element. */
  function ClassWords(internal: bool, attrs: map<string, string>, parent: Kind): seq<string> {
    ["reference", if internal || "refuri" !in attrs then "internal" else "external"]
    + (if !IsTextElement(parent) then ["image-reference"] else [])
  }

  /** The `class` attribute. */
  function LinkClass(internal: bool, attrs: map<string, string>, parent: Kind): string {
    Join(" ", ClassWords(internal, attrs, parent))
  }

  /** The class reads back as its words. */
  lemma LinkClassWords(internal: bool, attrs: map<string, string>, parent: Kind)
    ensures Split(LinkClass(internal, attrs, parent), ' ') ==
              ["reference", if internal || "refuri" !in attrs then "internal" else "external"]
              + (if !IsTextElement(parent) then ["image-reference"] else [])
  {
    var words := ClassWords(internal, attrs, parent);
    ClassWordsHaveNoSpace();
    assert forall i :: 0 <= i < |words| ==> ' ' !in words[i];
    SplitJoin(words, ' ');
  }

  lemma ClassWordsHaveNoSpace()
    ensures ' ' !in "reference" && ' ' !in "internal" && ' ' !in "external" && ' ' !in "image-reference"
  {
    var reference, internal, external, image := "reference", "internal", "external", "image-reference";
    forall i | 0 <= i < |reference| ensures reference[i] != ' ' { }
    forall i | 0 <= i < |internal| ensures internal[i] != ' ' { }
    forall i | 0 <= i < |external| ensures external[i] != ' ' { }
    forall i | 0 <= i < |image| ensures image[i] != ' ' { }
  }

  /** A reference outside a text element must wrap exactly one image. */
  predicate ImageReferenceOk(parent: Kind, children: seq<Child>) {
    IsTextElement(parent) ||
    (|children| == 1 && children[0].ElementNode? && children[0].tagname == "image")
  }

  // ---------------------------------------------------------------------
  // Bitbucket source links

  /** The `/`-segments of an href from its first `https:` on. */
  function ViewcodeParts(href: string): (r: seq<string>)
    ensures |r| >= 1
  {
    Split(SliceFrom(href, Find(href, "https:")), '/')
  }

  /** An in-page href that holds an `https:` URL whose last two segments
      both contain `#`: a link into a Bitbucket source listing. */
  predicate IsViewcode(href: string) {
    StartsWith(href, "#") && Find(href, "https:") >= 0 &&
    var parts := ViewcodeParts(href);
    |parts| > 2 && '#' in parts[|parts| - 2] && '#' in parts[|parts| - 1]
  }

  /** The dotted anchor derived from a source URL's path after `/browse/`:
      the directory segments, the file name cut at its first `.py`, and the
      fragment without `#`. */
  function BrowseAnchor(uri: string): (r: Result<string>)
    ensures r.Err? <==> |Split(SliceFrom(uri, Find(uri, "/browse/") + 8), '/')| < 2
    ensures r.Err? ==> r.error == IndexError
  {
    var up := Split(SliceFrom(uri, Find(uri, "/browse/") + 8), '/');
    if |up| < 2 then Err(IndexError)
    else
      var file := up[|up| - 2];
      Ok(Join(".", up[..|up| - 2] + [SliceTo(file, Find(file, ".py")), RemoveChar(up[|up| - 1], '#')]))
  }

  /** The extra anchor a source link emits: from a non-empty `refuri`, from a
      non-empty `reftitle` (its text after the last `#`) when there is no
      `refuri`, and none (the empty string) otherwise. */
  function ViewcodeAnchor(attrs: map<string, string>): (r: Result<string>)
    ensures r.Err? <==> "refuri" in attrs && attrs["refuri"] != "" && BrowseAnchor(attrs["refuri"]).Err?
    ensures r.Err? ==> r.error == IndexError
    ensures "refuri" in attrs && attrs["refuri"] != "" ==> r == BrowseAnchor(attrs["refuri"])
    ensures "refuri" in attrs && attrs["refuri"] == "" ==> r == Ok("")
    ensures "refuri" !in attrs && "reftitle" in attrs ==>
              r == Ok(Last(Split(attrs["reftitle"], '#'))) && '#' !in r.value
    ensures "refuri" !in attrs && "reftitle" !in attrs ==> r == Ok("")
  {
    if "refuri" in attrs then
      if attrs["refuri"] != "" then BrowseAnchor(attrs["refuri"]) else Ok("")
    else if "reftitle" in attrs && attrs["reftitle"] != "" then
      Ok(Last(Split(attrs["reftitle"], '#')))
    else Ok("")
  }

  /** An href after the source-link rewrite, with the anchors (identifiers,
      in emission order) emitted in front of the tag. */
  datatype Rewritten = Rewritten(href: string, anchors: seq<string>)

  /** The source-link rewrite: the href loses its last segment, and the
      anchor of the reference plus the last segment's text after its first
      character are emitted as anchors. Any other href is kept. */
  function Viewcode(href: string, attrs: map<string, string>): (r: Result<Rewritten>)
    ensures !IsViewcode(href) ==> r == Ok(Rewritten(href, []))
    ensures IsViewcode(href) ==> (r.Err? <==> ViewcodeAnchor(attrs).Err?)
    ensures r.Ok? && IsViewcode(href) ==>
              var parts := ViewcodeParts(href);
              Split(r.value.href, '/') == parts[..|parts| - 1] &&
              1 <= |r.value.anchors| <= 2 &&
              r.value.anchors[|r.value.anchors| - 1] == SliceFrom(parts[|parts| - 1], 1) &&
              (|r.value.anchors| == 2 <==> ViewcodeAnchor(attrs).value != "") &&
              (|r.value.anchors| == 2 ==> r.value.anchors[0] == ViewcodeAnchor(attrs).value)
  {
    if !IsViewcode(href) then Ok(Rewritten(href, []))
    else
      var parts := ViewcodeParts(href);
      match ViewcodeAnchor(attrs)
      case Err(e) => Err(e)
      case Ok(anchor) =>
        DropLastSegment(parts);
        Ok(Rewritten(Join("/", parts[..|parts| - 1]),
                     (if anchor != "" then [anchor] else []) + [SliceFrom(parts[|parts| - 1], 1)]))
  }

  /** Joining all segments but the last and splitting again gives them back. */
  lemma DropLastSegment(parts: seq<string>)
    requires |parts| > 1 && forall i :: 0 <= i < |parts| ==> '/' !in parts[i]
    ensures Split(Join("/", parts[..|parts| - 1]), '/') == parts[..|parts| - 1]
  {
    var kept := parts[..|parts| - 1];
    assert forall i :: 0 <= i < |kept| ==> '/' !in kept[i] by {
      forall i | 0 <= i < |kept| ensures '/' !in kept[i] { assert kept[i] == parts[i]; }
    }
    assert "/" == ['/'];
    SplitJoin(kept, '/');
  }

  /** The path after the first `/browse/` of a source URL. */
  lemma BrowsePath(head: string, tail: string)
    requires !Contains(head + "/browse", "/browse/")
    ensures var uri := head + "/browse/" + tail;
            SliceFrom(uri, Find(uri, "/browse/") + 8) == tail
  {
    assert "/browse/"[..7] == "/browse";
    FindAfterHead(head, "/browse/", tail);
  }

  /** The `/`-segments of a path after `/browse/`. */
  lemma BrowseSegments(head: string, segments: seq<string>)
    requires !Contains(head + "/browse", "/browse/")
    requires |segments| > 0 && forall i :: 0 <= i < |segments| ==> '/' !in segments[i]
    ensures var uri := head + "/browse/" + Join("/", segments);
            Split(SliceFrom(uri, Find(uri, "/browse/") + 8), '/') == segments
  {
    BrowsePath(head, Join("/", segments));
    assert "/" == ['/'];
    SplitJoin(segments, '/');
  }

  /** A source URL `…/browse/dir/…/stem.py…/fragment` gives the anchor
      `dir.….stem.fragment`: the directories, the stem before `.py`, and the
      last segment with every `#` removed. */
  lemma BrowseAnchorPy(head: string, dirs: seq<string>, stem: string, rest: string, last: string)
    requires !Contains(head + "/browse", "/browse/")
    requires forall i :: 0 <= i < |dirs| ==> '/' !in dirs[i]
    requires '/' !in stem && '.' !in stem && '/' !in rest && '/' !in last
    ensures BrowseAnchor(head + "/browse/" + Join("/", dirs + [stem + ".py" + rest, last]))
            == Ok(Join(".", dirs + [stem, RemoveChar(last, '#')]))
  {
    var file := stem + ".py" + rest;
    PyFileSegment(stem, rest);
    PyStemKept(stem, rest);
    BrowseAnchorSegments(head, dirs, file, last);
  }

  /** The anchor in terms of the three parts of the path after `/browse/`. */
  lemma BrowseAnchorSegments(head: string, dirs: seq<string>, file: string, last: string)
    requires !Contains(head + "/browse", "/browse/")
    requires forall i :: 0 <= i < |dirs| ==> '/' !in dirs[i]
    requires '/' !in file && '/' !in last
    ensures BrowseAnchor(head + "/browse/" + Join("/", dirs + [file, last]))
            == Ok(Join(".", dirs + [SliceTo(file, Find(file, ".py")), RemoveChar(last, '#')]))
  {
    var segments := dirs + [file, last];
    BrowseSegments(head, segments);
    assert segments[..|segments| - 2] == dirs;
    assert segments[|segments| - 2] == file && segments[|segments| - 1] == last;
  }

  lemma PyFileSegment(stem: string, rest: string)
    requires '/' !in stem && '/' !in rest
    ensures '/' !in stem + ".py" + rest
  {
    var file := stem + ".py" + rest;
    forall i | 0 <= i < |file| ensures file[i] != '/' {
      if i < |stem| { assert file[i] == stem[i]; }
      else if i >= |stem| + 3 { assert file[i] == rest[i - |stem| - 3]; }
    }
  }

  /** A file name without `.py` loses its last character in the anchor. */
  lemma BrowseAnchorNonPy(head: string, dirs: seq<string>, file: string, last: string)
    requires !Contains(head + "/browse", "/browse/")
    requires forall i :: 0 <= i < |dirs| ==> '/' !in dirs[i]
    requires |file| > 0 && !Contains(file, ".py") && '/' !in file && '/' !in last
    ensures BrowseAnchor(head + "/browse/" + Join("/", dirs + [file, last]))
            == Ok(Join(".", dirs + [file[..|file| - 1], RemoveChar(last, '#')]))
  {
    BrowseAnchorSegments(head, dirs, file, last);
    NonPyLosesLastCharacter(file);
  }

  /** The usual last segment `#fragment` contributes the fragment. */
  lemma BrowseAnchorFragment(head: string, dirs: seq<string>, stem: string, fragment: string)
    requires !Contains(head + "/browse", "/browse/")
    requires forall i :: 0 <= i < |dirs| ==> '/' !in dirs[i]
    requires '/' !in stem && '.' !in stem && '/' !in fragment && '#' !in fragment
    ensures BrowseAnchor(head + "/browse/" + Join("/", dirs + [stem + ".py", "#" + fragment]))
            == Ok(Join(".", dirs + [stem, fragment]))
  {
    var file, last := stem + ".py", "#" + fragment;
    assert file == stem + ".py" + "";
    PyFileSegment(stem, "");
    PyStemKept(stem, "");
    assert '/' !in last by {
      forall i | 0 <= i < |last| ensures last[i] != '/' {
        if i > 0 { assert last[i] == fragment[i - 1]; }
      }
    }
    BrowseAnchorSegments(head, dirs, file, last);
    assert last[1..] == fragment;
    RemoveCharAbsent(fragment, '#');
  }

  /** A source URL without `/browse/`: `find` gives -1, so the path is
      read from the eighth character on, as if `/browse/` ended there. */
  lemma BrowseAnchorWithoutBrowse(uri: string)
    requires !Contains(uri, "/browse/")
    ensures BrowseAnchor(uri) == BrowseAnchor("/browse/" + SliceFrom(uri, 7))
  {
    var path := SliceFrom(uri, 7);
    var u := "/browse/" + path;
    assert Find(uri, "/browse/") == -1;
    assert u[0..][..8] == "/browse/";
    assert Find(u, "/browse/") == 0;
    assert SliceFrom(u, 8) == path;
    assert SliceFrom(uri, Find(uri, "/browse/") + 8) == SliceFrom(u, Find(u, "/browse/") + 8);
  }

  /** A file name whose stem has no dot is cut exactly at `.py`. */
  lemma {:induction false} PyStemFound(stem: string, rest: string)
    requires '.' !in stem
    ensures Find(stem + ".py" + rest, ".py") == |stem|
  {
    var s := stem + ".py" + rest;
    assert s[|stem|..] == ".py" + rest;
    forall k | 0 <= k < |stem| ensures !StartsWith(s[k..], ".py") {
      assert s[k..][0] == stem[k];
    }
  }

  /** The cut keeps the stem of a `.py` file. */
  lemma PyStemKept(stem: string, rest: string)
    requires '.' !in stem
    ensures var file := stem + ".py" + rest; SliceTo(file, Find(file, ".py")) == stem
  {
    PyStemFound(stem, rest);
  }

  /** The cut of a file name without `.py` drops its last character:
      `find` returns -1 and `[:-1]` is what remains. */
  lemma NonPyLosesLastCharacter(file: string)
    requires |file| > 0 && !Contains(file, ".py")
    ensures SliceTo(file, Find(file, ".py")) == file[..|file| - 1]
  {
  }

  // ---------------------------------------------------------------------
  // Links into other wiki pages

  /** The target taken from `refuri`: its last `/`-segment without its
      first character, or nothing for a missing or empty `refuri`. */
  function RefuriTarget(attrs: map<string, string>): (r: string)
    ensures "refuri" !in attrs || attrs["refuri"] == "" ==> r == ""
    ensures "refuri" in attrs && attrs["refuri"] != "" ==>
              var b := Basename(attrs["refuri"]);
              (b == "" ==> r == "") && (b != "" ==> r == b[1..])
    ensures "refuri" in attrs ==> EndsWith(attrs["refuri"], r)
    ensures '/' !in r
  {
    if "refuri" in attrs && attrs["refuri"] != "" then SliceFrom(Last(Split(attrs["refuri"], '/')), 1) else ""
  }

  /** The anchor a link into another page points at: the target taken from
      `refuri` when that is not empty, otherwise the text after the last `#`
      of `reftitle`, otherwise nothing. */
  function RefpageTarget(attrs: map<string, string>): (r: string)
    ensures RefuriTarget(attrs) != "" ==> r == RefuriTarget(attrs) && '/' !in r
    ensures RefuriTarget(attrs) == "" && "reftitle" in attrs ==>
              r == Last(Split(attrs["reftitle"], '#')) && '#' !in r
    ensures RefuriTarget(attrs) == "" && "reftitle" !in attrs ==> r == ""
  {
    var fromUri := RefuriTarget(attrs);
    if fromUri == "" && "reftitle" in attrs then Last(Split(attrs["reftitle"], '#')) else fromUri
  }

  /** The href of a link into `page`. */
  function RefpageHref(page: Page, attrs: map<string, string>): (r: string)
    ensures StartsWith(r, page.serverPath + "#" + page.shortTitle + "-")
    ensures r[|page.serverPath + "#" + page.shortTitle + "-"|..] == RefpageTarget(attrs)
  {
    var head := page.serverPath + "#" + page.shortTitle + "-";
    var r := head + RefpageTarget(attrs);
    assert r[..|head|] == head;
    r
  }

  /** The last segment of a split is whatever follows the last separator. */
  lemma {:induction false} SplitLast(a: string, sep: char, b: string)
    requires sep !in b
    ensures |Split(a + [sep] + b, sep)| >= 2
    ensures Last(Split(a + [sep] + b, sep)) == b
  {
    var s := a + [sep] + b;
    if |a| == 0 {
      assert s == [sep] + b;
      assert s[1..] == b;
      SplitNoSeparator(b, sep);
    } else {
      assert s[1..] == a[1..] + [sep] + b;
      SplitLast(a[1..], sep, b);
    }
  }

  /** A `refuri` ending in `/#fragment` links to `fragment` of the page. */
  lemma RefpageFragment(page: Page, attrs: map<string, string>, path: string, fragment: string)
    requires "refuri" in attrs && attrs["refuri"] == path + "/#" + fragment
    requires '/' !in fragment && fragment != ""
    ensures RefpageHref(page, attrs) == page.serverPath + "#" + page.shortTitle + "-" + fragment
  {
    assert path + "/#" + fragment == path + ['/'] + ("#" + fragment);
    assert '/' !in "#" + fragment;
    SplitLast(path, '/', "#" + fragment);
    assert SliceFrom("#" + fragment, 1) == fragment;
  }

  /** With no usable `refuri` (none, an empty one, or one whose last
      segment has at most one character, such as `../other/`), the section
      in `reftitle` after its last `#` is the target. */
  lemma RefpageTitleFallback(page: Page, attrs: map<string, string>, title: string, section: string)
    requires "refuri" !in attrs || attrs["refuri"] == "" || |Last(Split(attrs["refuri"], '/'))| <= 1
    requires "reftitle" in attrs && attrs["reftitle"] == title + "#" + section && '#' !in section
    ensures RefpageHref(page, attrs) == page.serverPath + "#" + page.shortTitle + "-" + section
  {
    assert title + "#" + section == title + ['#'] + section;
    SplitLast(title, '#', section);
  }

  /** The link `../other/#sec` into the page served at `/wiki/other` with
      short title `Other`. */
  lemma RefpageExample(page: Page, attrs: map<string, string>)
    requires page.serverPath == "/wiki/other" && page.shortTitle == "Other"
    requires "refuri" in attrs && attrs["refuri"] == "../other/#sec"
    ensures RefpageHref(page, attrs) == "/wiki/other#Other-sec"
  {
    var path, fragment := "../other", "sec";
    RefpageExampleUri(attrs["refuri"], path, fragment);
    RefpageFragment(page, attrs, path, fragment);
    RefpageExampleHref(page.serverPath, page.shortTitle, fragment);
  }

  lemma RefpageExampleUri(uri: string, path: string, fragment: string)
    requires uri == "../other/#sec" && path == "../other" && fragment == "sec"
    ensures uri == path + "/#" + fragment && '/' !in fragment && fragment != ""
  {
    forall i | 0 <= i < |fragment| ensures fragment[i] != '/' { }
  }

  lemma RefpageExampleHref(serverPath: string, shortTitle: string, fragment: string)
    requires serverPath == "/wiki/other" && shortTitle == "Other" && fragment == "sec"
    ensures serverPath + "#" + shortTitle + "-" + fragment == "/wiki/other#Other-sec"
  {
  }

  /** A `refuri` of the form `../other.rst#sec` has a single last segment
      `other.rst#sec`, so the target loses the `o` rather than the `#`. */
  lemma RefpageFileLink()
    ensures RefpageTarget(map["refuri" := "../other.rst#sec"]) == "ther.rst#sec"
  {
    var uri, last := "../other.rst#sec", "other.rst#sec";
    assert uri == ".." + ['/'] + last;
    assert '/' !in last by {
      forall i | 0 <= i < |last| ensures last[i] != '/' { }
    }
    SplitLast("..", '/', last);
    assert SliceFrom(last, 1) == "ther.rst#sec";
    assert RefuriTarget(map["refuri" := uri]) == "ther.rst#sec";
  }

  // ---------------------------------------------------------------------
  // Section numbers

  function Numbers(secnumber: seq<nat>): (r: seq<string>)
    ensures |r| == |secnumber|
    ensures forall i :: 0 <= i < |r| ==> r[i] == NatToString(secnumber[i])
  {
    if |secnumber| == 0 then [] else [NatToString(secnumber[0])] + Numbers(secnumber[1..])
  }

  /** The section number printed after the tag: the numbers dot-joined,
      then the configured suffix. */
  function SecnumberText(secnumber: seq<nat>, suffix: string): string {
    Join(".", Numbers(secnumber)) + suffix
  }

  /** The printed number reads back as the section's numbers. */
  lemma SecnumberReadsBack(secnumber: seq<nat>)
    requires |secnumber| > 0
    ensures var text := Join(".", Numbers(secnumber));
            Split(text, '.') == Numbers(secnumber) &&
            forall i :: 0 <= i < |secnumber| ==> Split(text, '.')[i] == NatToString(secnumber[i])
    ensures var text := Join(".", Numbers(secnumber));
            |Split(text, '.')| == |secnumber| &&
            forall i :: 0 <= i < |secnumber| ==> DigitsValue(Split(text, '.')[i]) == secnumber[i]
  {
    var ns := Numbers(secnumber);
    forall i | 0 <= i < |secnumber| ensures DigitsValue(ns[i]) == secnumber[i] {
      NatToStringValue(secnumber[i]);
    }
    forall i | 0 <= i < |ns| ensures '.' !in ns[i] {
      forall j | 0 <= j < |ns[i]| ensures ns[i][j] != '.' { }
    }
    SplitJoin(ns, '.');
  }

  // ---------------------------------------------------------------------
  // The whole start tag

  /** What `visit_reference` emits on success: the anchors in front of the
      tag, the tag's attributes, and whether `in_mailto` is set. */
  datatype Link = Link(anchors: seq<string>, atts: map<string, string>, mailto: bool)

  /** The attributes of the `<a>` tag of a reference, or the exception
      `visit_reference` raises. */
  function ReferenceLink(attrs: map<string, string>, internal: bool, title: Option<Child>,
                         cloakEmails: bool, cloak: string -> string, parent: Kind,
                         children: seq<Child>, refpage: Option<Page>): (r: Result<Link>)
    ensures r.Ok? <==> LinkHref(attrs, internal, title, cloakEmails, cloak).Ok? &&
                       ImageReferenceOk(parent, children) &&
                       Viewcode(LinkHref(attrs, internal, title, cloakEmails, cloak).value.href, attrs).Ok?
    ensures r.Err? ==>
              var h := LinkHref(attrs, internal, title, cloakEmails, cloak);
              r.error == if h.Err? then h.error
                         else if !ImageReferenceOk(parent, children) then AssertionError("")
                         else Viewcode(h.value.href, attrs).error
    ensures r.Ok? ==> r.value.atts.Keys == {"class", "href"} + (if "reftitle" in attrs then {"title"} else {})
    ensures r.Ok? ==> r.value.atts["class"] == LinkClass(internal, attrs, parent)
    ensures r.Ok? && "reftitle" in attrs ==> r.value.atts["title"] == attrs["reftitle"]
    ensures r.Ok? ==> r.value.mailto == LinkHref(attrs, internal, title, cloakEmails, cloak).value.mailto
    ensures r.Ok? ==>
              var v := Viewcode(LinkHref(attrs, internal, title, cloakEmails, cloak).value.href, attrs).value;
              r.value.anchors == v.anchors &&
              r.value.atts["href"] == if refpage.Some? && !StartsWith(v.href, "http")
                                      then RefpageHref(refpage.value, attrs) else v.href
  {
    match LinkHref(attrs, internal, title, cloakEmails, cloak)
    case Err(e) => Err(e)
    case Ok(h) =>
      if !ImageReferenceOk(parent, children) then Err(AssertionError(""))
      else
        match Viewcode(h.href, attrs)
        case Err(e) => Err(e)
        case Ok(v) =>
          Ok(Link(v.anchors, TagAtts(attrs, internal, parent, refpage, v.href), h.mailto))
  }

  /** The attributes of the `<a>` tag once the href is rewritten. */
  function TagAtts(attrs: map<string, string>, internal: bool, parent: Kind,
                   refpage: Option<Page>, rewritten: string): (m: map<string, string>)
    ensures m.Keys == {"class", "href"} + (if "reftitle" in attrs then {"title"} else {})
    ensures m["class"] == LinkClass(internal, attrs, parent)
    ensures "reftitle" in attrs ==> m["title"] == attrs["reftitle"]
    ensures m["href"] == if refpage.Some? && !StartsWith(rewritten, "http")
                         then RefpageHref(refpage.value, attrs) else rewritten
  {
    var href := if refpage.Some? && !StartsWith(rewritten, "http") then RefpageHref(refpage.value, attrs) else rewritten;
    var atts := map["class" := LinkClass(internal, attrs, parent), "href" := href];
    if "reftitle" in attrs then atts["title" := attrs["reftitle"]] else atts
  }

  /** An internal link with a cached text title, not rewritten, points at
      `#` + the title without spaces + `-` + its refuri (or refid). */
  lemma InternalLinkHref(attrs: map<string, string>, title: string, cloakEmails: bool,
                         cloak: string -> string, parent: Kind, children: seq<Child>)
    requires "refuri" in attrs || "refid" in attrs
    requires ImageReferenceOk(parent, children)
    requires !IsViewcode("#" + RemoveChar(title, ' ') + "-" + (if "refuri" in attrs then attrs["refuri"] else attrs["refid"]))
    ensures var r := ReferenceLink(attrs, true, Some(TextNode(title)), cloakEmails, cloak, parent, children, None);
            r.Ok? && r.value.anchors == [] && !r.value.mailto &&
            r.value.atts["href"] == "#" + RemoveChar(title, ' ') + "-" + (if "refuri" in attrs then attrs["refuri"] else attrs["refid"])
  {
    var prefix := "#" + RemoveChar(title, ' ') + "-";
    var h := prefix + (if "refuri" in attrs then attrs["refuri"] else attrs["refid"]);
    InternalHref(attrs, title, cloakEmails, cloak);
    assert Viewcode(h, attrs) == Ok(Rewritten(h, []));
    var atts := map["class" := LinkClass(true, attrs, parent), "href" := h];
    var full := if "reftitle" in attrs then atts["title" := attrs["reftitle"]] else atts;
    assert ReferenceLink(attrs, true, Some(TextNode(title)), cloakEmails, cloak, parent, children, None)
           == Ok(Link([], full, false));
    assert full["href"] == h;
  }

  /** An internal link with a cached text title is never a `mailto:` link. */
  lemma InternalHref(attrs: map<string, string>, title: string, cloakEmails: bool, cloak: string -> string)
    requires "refuri" in attrs || "refid" in attrs
    ensures LinkHref(attrs, true, Some(TextNode(title)), cloakEmails, cloak) ==
              Ok(Href("#" + RemoveChar(title, ' ') + "-" + (if "refuri" in attrs then attrs["refuri"] else attrs["refid"]), false))
  {
    var h := "#" + RemoveChar(title, ' ') + "-" + (if "refuri" in attrs then attrs["refuri"] else attrs["refid"]);
    assert !StartsWith(h, "mailto:") by { assert h[0] == '#'; }
  }
}
