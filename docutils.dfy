/** The slice of the docutils document model that the Confluence translator
    reads: elements with an attribute dictionary, their children, the kind of
    their parent, and the page descriptors of the Confluence page registry. */
module Docutils {

  datatype Option<+T> = None | Some(value: T)

  /** The Python exceptions the translator can raise while visiting a node. */
  datatype Error =
    | KeyError(key: string)          // `node[key]` on a missing attribute
    | IndexError                     // a list index out of range
    | AssertionError(message: string)
    | ValueError                     // `Element.replace` on a child it does not hold

  datatype Result<+T> = Ok(value: T) | Err(error: Error)

  /** What a visitor tells the tree walker: descend into the children, skip
      them (`raise nodes.SkipNode`), or stop with an exception. */
  datatype Signal = Continue | Skip | Abort(error: Error)

  /** The class of a node's parent, as far as the translator tests it with
      `isinstance`. `nodes.reference` is itself a `nodes.TextElement`;
      `Other` stands for every other element and for a missing parent. */
  datatype Kind = Section | Reference | TextElement | Other

  predicate IsTextElement(k: Kind) {
    k == Reference || k == TextElement
  }

  /** A child node: a `nodes.Text` run or an element with its own children. */
  datatype Child = TextNode(text: string) | ElementNode(tagname: string, children: seq<Child>)

  /** `node.children` of a child (a `nodes.Text` has none). */
  function ChildrenOf(c: Child): seq<Child> {
    match c
    case TextNode(_) => []
    case ElementNode(_, cs) => cs
  }

  /** A page descriptor of the registry, as filled in from the publisher's
      configuration and the remote wiki. */
  datatype Page = Page(
    id: string,
    source: string,
    localPath: string,
    serverPath: string,
    title: string,
    shortTitle: string)

  /** The keys `find_page` can be asked to match on. */
  datatype PageField = Id | Source | LocalPath | ServerPath | PageTitle | ShortTitle

  /** `page.get(field)` */
  function PageGet(p: Page, f: PageField): string {
    match f
    case Id => p.id
    case Source => p.source
    case LocalPath => p.localPath
    case ServerPath => p.serverPath
    case PageTitle => p.title
    case ShortTitle => p.shortTitle
  }

  /** A docutils element. Its string attributes live in `attrs`, which the
      translator (the `language` of a literal block) and the reference
      resolver (`refpage`) update in place; the boolean and list attributes
      the translator reads only for their truth value are fields of their own. */
  class Element {
    const tagname: string
    var attrs: map<string, string>
    var refpage: Option<Page>
    const internal: bool
    const linenos: bool
    const secnumber: seq<nat>
    const rawsource: string
    const children: seq<Child>
    const parent: Kind
    const grandparent: Kind

    constructor (tagname: string, attrs: map<string, string>, internal: bool, linenos: bool,
                 secnumber: seq<nat>, rawsource: string, children: seq<Child>,
                 parent: Kind, grandparent: Kind)
      ensures this.tagname == tagname && this.attrs == attrs && this.refpage == None
      ensures this.internal == internal && this.linenos == linenos && this.secnumber == secnumber
      ensures this.rawsource == rawsource && this.children == children
      ensures this.parent == parent && this.grandparent == grandparent
    {
      this.tagname := tagname;
      this.attrs := attrs;
      this.refpage := None;
      this.internal := internal;
      this.linenos := linenos;
      this.secnumber := secnumber;
      this.rawsource := rawsource;
      this.children := children;
      this.parent := parent;
      this.grandparent := grandparent;
    }
  }
}
