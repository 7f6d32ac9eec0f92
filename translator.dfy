/** `HTMLConfluenceTranslator`: the Sphinx HTML translator whose visitors
    emit Confluence storage format instead of HTML. The translator appends
    markup to `body`, pushes closing text for its departs onto `context`,
    counts open sections in `sectionLevel` and remembers in `inMailto` that
    a cloaked `mailto:` link was started. What the inherited HTML translator
    does is given by the functions in `Base`. */
module Translator {
  import opened PyStrings
  import opened Docutils
  import opened Titles
  import opened Macros
  import opened Images
  import opened References

  /** The parts of the inherited HTML translator the visitors call:
      `attval` escapes an attribute value; `starttag(node attributes, tag,
      suffix, attributes)` renders a start tag; `cloakMailto` obfuscates an
      address; `visitTitle(children, section level)` is the markup
      `HTMLTranslator.visit_title` appends; `render` is `str()` of an
      element. */
  datatype Base = Base(
    attval: string -> string,
    starttag: (map<string, string>, string, string, map<string, string>) -> string,
    cloakMailto: string -> string,
    visitTitle: (seq<Child>, int) -> string,
    render: Child -> string)

  /** The anchor macros for a sequence of identifiers, in order. */
  function AnchorMacros(anchors: seq<string>): (r: seq<string>)
    ensures |r| == |anchors|
    ensures forall i :: 0 <= i < |r| ==> r[i] == AnchorMacro(anchors[i])
  {
    if |anchors| == 0 then [] else [AnchorMacro(anchors[0])] + AnchorMacros(anchors[1..])
  }

  /** The markup following the start tag of a numbered reference. */
  function SecnumberTail(secnumber: seq<nat>, suffix: string): seq<string> {
    if |secnumber| > 0 then [SecnumberText(secnumber, suffix)] else []
  }

  class HTMLConfluenceTranslator {
    var body: seq<string>
    var context: seq<string>
    var sectionLevel: int
    var inMailto: bool

    /** The key of the document being translated (`hash(document)`). */
    const document: int
    const initialHeaderLevel: int
    const cloakEmailAddresses: bool
    const secnumberSuffix: string
    const cache: TitlesCache
    const base: Base

    constructor (document: int, initialHeaderLevel: int, cloakEmailAddresses: bool,
                 secnumberSuffix: string, cache: TitlesCache, base: Base)
      ensures body == [] && context == [] && sectionLevel == 0 && !inMailto
      ensures this.document == document && this.initialHeaderLevel == initialHeaderLevel
      ensures this.cloakEmailAddresses == cloakEmailAddresses && this.secnumberSuffix == secnumberSuffix
      ensures this.cache == cache && this.base == base
    {
      body := [];
      context := [];
      sectionLevel := 0;
      inMailto := false;
      this.document := document;
      this.initialHeaderLevel := initialHeaderLevel;
      this.cloakEmailAddresses := cloakEmailAddresses;
      this.secnumberSuffix := secnumberSuffix;
      this.cache := cache;
      this.base := base;
    }

    // -------------------------------------------------------------------
    // Admonitions

    /** `visit_admonition`: opens the Confluence macro of the kind. */
    method VisitAdmonition(name: string)
      modifies this
      ensures body == old(body) + [AdmonitionOpen(AdmonitionType(name))]
      ensures context == old(context) && sectionLevel == old(sectionLevel) && inMailto == old(inMailto)
    {
      body := body + [AdmonitionOpen(AdmonitionType(name))];
    }

    /** `depart_admonition`: closes it. */
    method DepartAdmonition()
      modifies this
      ensures body == old(body) + [AdmonitionClose]
      ensures context == old(context) && sectionLevel == old(sectionLevel) && inMailto == old(inMailto)
    {
      body := body + [AdmonitionClose];
    }

    // -------------------------------------------------------------------
    // Images

    /** `visit_image`: a node without `uri` raises `KeyError`; otherwise an
        empty closing text is pushed and the `<ac:image>` element of the
        file's base name is appended, inline inside text elements. */
    method VisitImage(node: Element) returns (r: Signal)
      modifies this
      ensures "uri" !in old(node.attrs) ==>
                r == Abort(KeyError("uri")) && body == old(body) && context == old(context)
      ensures "uri" in old(node.attrs) ==>
                r == Continue && context == old(context) + [""] &&
                body == old(body) + [VisitImageMarkup(old(node.attrs), ImageSuffix(node.parent, node.grandparent),
                                                      base.attval)]
      ensures sectionLevel == old(sectionLevel) && inMailto == old(inMailto)
    {
      if "uri" !in node.attrs {
        return Abort(KeyError("uri"));
      }
      // `imgtag` cannot fail here, so computing the tag before the push is
      // the order of `visit_image` as far as anything can observe.
      var tag := VisitImageTag(node.attrs, ImageSuffix(node.parent, node.grandparent), base.attval);
      context := context + [""];
      body := body + [tag];
      r := Continue;
    }

    // -------------------------------------------------------------------
    // Titles

    /** The first top-level section heading of a page is the page's title:
        no title is cached yet and the heading level is 1. */
    predicate TakesPageTitle(node: Element)
      reads this, cache
    {
      node.parent == Section && !cache.HasTitle(document) &&
      sectionLevel + initialHeaderLevel - 1 == 1
    }

    /** `visit_title`: the page title is cached (its first child; a heading
        without children raises `IndexError`) and skipped; every other title
        goes to the HTML translator. */
    method VisitTitle(node: Element) returns (r: Signal)
      modifies this, cache
      ensures old(TakesPageTitle(node)) && |node.children| == 0 ==>
                r == Abort(IndexError) && cache.titles == old(cache.titles) && body == old(body)
      ensures old(TakesPageTitle(node)) && |node.children| > 0 ==>
                r == Skip && cache.titles == old(cache.titles)[document := node.children[0]] &&
                body == old(body)
      ensures !old(TakesPageTitle(node)) ==>
                r == Continue && cache.titles == old(cache.titles) &&
                body == old(body) + [base.visitTitle(node.children, sectionLevel)]
      ensures r == Skip ==> cache.HasTitle(document)
      ensures old(cache.HasTitle(document)) ==> cache.titles == old(cache.titles) && r == Continue
      ensures context == old(context) && sectionLevel == old(sectionLevel) && inMailto == old(inMailto)
    {
      if TakesPageTitle(node) {
        if |node.children| == 0 {
          return Abort(IndexError);
        }
        cache.SetTitle(document, node.children[0]);
        return Skip;
      }
      body := body + [base.visitTitle(node.children, sectionLevel)];
      r := Continue;
    }

    // -------------------------------------------------------------------
    // Targets

    /** `visit_target`: an anchor macro for a target with `refid` or
        `refname`, nothing for any other. */
    method VisitTarget(node: Element)
      modifies this
      ensures TargetLink(node.attrs).Some? ==> body == old(body) + [AnchorMacro(TargetLink(node.attrs).value)]
      ensures TargetLink(node.attrs).None? ==> body == old(body)
      ensures context == old(context) && sectionLevel == old(sectionLevel) && inMailto == old(inMailto)
    {
      var link := TargetLink(node.attrs);
      if link.Some? {
        body := body + [AnchorMacro(link.value)];
      }
    }

    // -------------------------------------------------------------------
    // Code blocks

    /** `visit_literal_block`: replaces an unknown `language` of the node by
        `none`, appends the code macro and skips the children. */
    method VisitLiteralBlock(node: Element) returns (r: Signal)
      modifies this, node
      ensures node.attrs == FixLanguage(old(node.attrs)) && node.refpage == old(node.refpage)
      ensures body == old(body) + [CodeMacro(Language(old(node.attrs)), node.linenos,
                                             Caption(old(node.attrs)), node.rawsource)]
      ensures r == Skip
      ensures context == old(context) && sectionLevel == old(sectionLevel) && inMailto == old(inMailto)
    {
      var language := Language(node.attrs);
      node.attrs := FixLanguage(node.attrs);
      body := body + [CodeMacro(language, node.linenos, Caption(node.attrs), node.rawsource)];
      r := Skip;
    }

    // -------------------------------------------------------------------
    // Attachment links

    /** `visit_download_reference`: a reference without `filename` pushes an
        empty closing text and lets its children be visited; one with a
        file name becomes an attachment link and its children are skipped. */
    method VisitDownloadReference(node: Element) returns (r: Signal)
      modifies this
      ensures "filename" !in node.attrs ==>
                r == Continue && context == old(context) + [""] && body == old(body)
      ensures "filename" in node.attrs ==>
                r == Skip && context == old(context) &&
                body == old(body) + [DownloadLink(node.attrs["filename"], DownloadText(node.children, base.render))]
      ensures sectionLevel == old(sectionLevel) && inMailto == old(inMailto)
    {
      if "filename" !in node.attrs {
        context := context + [""];
        return Continue;
      }
      body := body + [DownloadLink(node.attrs["filename"], DownloadText(node.children, base.render))];
      r := Skip;
    }

    // -------------------------------------------------------------------
    // Sections

    /** `visit_section`: no markup, one level deeper. */
    method VisitSection()
      modifies this
      ensures sectionLevel == old(sectionLevel) + 1
      ensures body == old(body) && context == old(context) && inMailto == old(inMailto)
    {
      sectionLevel := sectionLevel + 1;
    }

    /** `depart_section`: no markup, one level up. */
    method DepartSection()
      modifies this
      ensures sectionLevel == old(sectionLevel) - 1
      ensures body == old(body) && context == old(context) && inMailto == old(inMailto)
    {
      sectionLevel := sectionLevel - 1;
    }

    // -------------------------------------------------------------------
    // References

    /** The cached title an internal reference's href is prefixed with. */
    function ReferenceTitle(): Option<Child>
      reads this, cache
    {
      cache.GetTitle(document)
    }

    /** `visit_reference`: the anchors of a source link, then the `<a>`
        start tag, then the section number when the reference has one. A
        cloaked `mailto:` href sets `in_mailto`, and an element title loses
        the `' '` child its `replace(' ', '')` removes, before any later
        check can fail; a failing check appends nothing. */
    method VisitReference(node: Element) returns (r: Signal)
      modifies this, cache
      ensures var t := ReplacedTitle(node.attrs, node.internal, old(ReferenceTitle()));
              cache.titles == if t.Some? then old(cache.titles)[document := t.value] else old(cache.titles)
      ensures var h := LinkHref(node.attrs, node.internal, old(ReferenceTitle()), cloakEmailAddresses, base.cloakMailto);
              inMailto == (old(inMailto) || (h.Ok? && h.value.mailto))
      ensures var link := ReferenceLink(node.attrs, node.internal, old(ReferenceTitle()), cloakEmailAddresses,
                                        base.cloakMailto, node.parent, node.children, node.refpage);
              (link.Err? ==> r == Abort(link.error) && body == old(body)) &&
              (link.Ok? ==>
                 r == Continue &&
                 body == old(body) + AnchorMacros(link.value.anchors)
                         + [base.starttag(node.attrs, "a", "", link.value.atts)]
                         + SecnumberTail(node.secnumber, secnumberSuffix))
      ensures context == old(context) && sectionLevel == old(sectionLevel)
    {
      var title := ReferenceTitle();
      var replaced := ReplacedTitle(node.attrs, node.internal, title);
      if replaced.Some? {
        cache.SetTitle(document, replaced.value);
      }
      var h := LinkHref(node.attrs, node.internal, title, cloakEmailAddresses, base.cloakMailto);
      if h.Ok? && h.value.mailto {
        inMailto := true;
      }
      var link := ReferenceLink(node.attrs, node.internal, title, cloakEmailAddresses,
                                base.cloakMailto, node.parent, node.children, node.refpage);
      if link.Err? {
        return Abort(link.error);
      }
      body := body + AnchorMacros(link.value.anchors)
              + [base.starttag(node.attrs, "a", "", link.value.atts)]
              + SecnumberTail(node.secnumber, secnumberSuffix);
      r := Continue;
    }
  }
}
