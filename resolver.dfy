/** The cross-document reference resolver, run once a document's
    references are resolved (`doctree-resolved`): `find_page` searches the
    page registry, and `fix_references` attaches a `refpage` descriptor to
    every relative link into another registered page, which
    `visit_reference` later turns into a wiki link. */
module Resolver {
  import opened PyStrings
  import opened Docutils

  // ---------------------------------------------------------------------
  // find_page

  /** A page whose fields equal every given value. */
  predicate Matches(page: Page, params: seq<(PageField, string)>) {
    forall i :: 0 <= i < |params| ==> PageGet(page, params[i].0) == params[i].1
  }

  /** A single field test holds when the page has that value. */
  lemma MatchesOne(field: PageField, value: string)
    ensures forall page :: Matches(page, [(field, value)]) <==> PageGet(page, field) == value
  {
    forall page ensures Matches(page, [(field, value)]) <==> PageGet(page, field) == value {
      assert [(field, value)][0] == (field, value);
    }
  }

  /** `find_page(pages, **params)`: the first page matching all the given
      fields, or None when no page does. */
  function FindPage(pages: seq<Page>, params: seq<(PageField, string)>): (r: Option<Page>)
    ensures r.Some? ==> r.value in pages && Matches(r.value, params)
    ensures r.None? <==> forall i :: 0 <= i < |pages| ==> !Matches(pages[i], params)
  {
    if |pages| == 0 then None
    else if Matches(pages[0], params) then Some(pages[0])
    else
      var rest := FindPage(pages[1..], params);
      assert forall i :: 1 <= i < |pages| ==> pages[i] == pages[1..][i - 1];
      rest
  }

  /** What `FindPage` returns is the first match: no earlier page matches. */
  lemma {:induction false} FindPageFirst(pages: seq<Page>, params: seq<(PageField, string)>)
    requires FindPage(pages, params).Some?
    ensures exists i :: 0 <= i < |pages| && pages[i] == FindPage(pages, params).value &&
                        forall j :: 0 <= j < i ==> !Matches(pages[j], params)
  {
    if !Matches(pages[0], params) {
      FindPageFirst(pages[1..], params);
      var i :| 0 <= i < |pages[1..]| && pages[1..][i] == FindPage(pages[1..], params).value &&
               forall j :: 0 <= j < i ==> !Matches(pages[1..][j], params);
      assert pages[i + 1] == pages[1..][i];
      forall j | 0 <= j < i + 1 ensures !Matches(pages[j], params) {
        if j > 0 { assert pages[j] == pages[1..][j - 1]; }
      }
    }
  }

  // ---------------------------------------------------------------------
  // fix_references

  /** The registry page of the document `docname`: the first whose local
      path ends with it. */
  function HomePage(pages: seq<Page>, docname: string): (r: Option<Page>)
    ensures r.Some? ==> r.value in pages && EndsWith(r.value.localPath, docname)
    ensures r.None? <==> forall i :: 0 <= i < |pages| ==> !EndsWith(pages[i].localPath, docname)
  {
    if |pages| == 0 then None
    else if EndsWith(pages[0].localPath, docname) then Some(pages[0])
    else
      var rest := HomePage(pages[1..], docname);
      assert forall i :: 1 <= i < |pages| ==> pages[i] == pages[1..][i - 1];
      rest
  }

  /** The page `HomePage` returns is the first whose local path ends with
      the document name, as the loop's `break` picks it. */
  lemma {:induction false} HomePageFirst(pages: seq<Page>, docname: string)
    requires HomePage(pages, docname).Some?
    ensures exists i :: 0 <= i < |pages| && pages[i] == HomePage(pages, docname).value &&
                        forall j :: 0 <= j < i ==> !EndsWith(pages[j].localPath, docname)
  {
    if !EndsWith(pages[0].localPath, docname) {
      HomePageFirst(pages[1..], docname);
      var i :| 0 <= i < |pages[1..]| && pages[1..][i] == HomePage(pages[1..], docname).value &&
               forall j :: 0 <= j < i ==> !EndsWith(pages[1..][j].localPath, docname);
      assert pages[i + 1] == pages[1..][i];
      forall j | 0 <= j < i + 1 ensures !EndsWith(pages[j].localPath, docname) {
        if j > 0 { assert pages[j] == pages[1..][j - 1]; }
      }
    }
  }

  /** The segments of a path that do not start with `#`. */
  function Unhashed(parts: seq<string>): (r: seq<string>)
    ensures |r| <= |parts|
    ensures forall i :: 0 <= i < |r| ==> r[i] in parts && !StartsWith(r[i], "#")
    ensures |parts| > 0 && !StartsWith(parts[0], "#") ==> |r| > 0 && r[0] == parts[0]
  {
    if |parts| == 0 then []
    else if StartsWith(parts[0], "#") then Unhashed(parts[1..])
    else [parts[0]] + Unhashed(parts[1..])
  }

  /** The relative path a reference's `refuri` names, or None when it is
      not a link the resolver rewrites: the uri must start with `..`, hold
      no `http` and have at least two `/`-segments; its segments starting
      with `#` are dropped. */
  function RelativeTarget(uri: string): (r: Option<string>)
    ensures r.Some? <==> StartsWith(uri, "..") && !Contains(uri, "http") && |Split(uri, '/')| >= 2
  {
    if !StartsWith(uri, "..") || Contains(uri, "http") then None
    else
      var parts := Split(uri, '/');
      if |parts| < 2 then None else Some(Join("/", Unhashed(parts)))
  }

  /** The rewritten path keeps the uri's leading `..` segment and the order
      of its other segments, and loses every segment that starts with `#`. */
  lemma RelativeTargetSegments(uri: string)
    requires RelativeTarget(uri).Some?
    ensures var segments := Split(RelativeTarget(uri).value, '/');
            segments == Unhashed(Split(uri, '/')) &&
            segments[0] == Split(uri, '/')[0] && StartsWith(segments[0], "..") &&
            forall i :: 0 <= i < |segments| ==> !StartsWith(segments[i], "#")
  {
    var parts := Split(uri, '/');
    FirstSegmentPrefix(uri, '/', "..");
    var kept := Unhashed(parts);
    forall i | 0 <= i < |kept| ensures '/' !in kept[i] {
      var j :| 0 <= j < |parts| && parts[j] == kept[i];
    }
    SplitJoin(kept, '/');
  }

  /** The first segment of a string starting with a prefix free of the
      separator starts with that prefix. */
  lemma {:induction false} FirstSegmentPrefix(s: string, sep: char, p: string)
    requires StartsWith(s, p) && sep !in p
    ensures StartsWith(Split(s, sep)[0], p)
  {
    if |p| > 0 {
      assert p[0] in p;
      FirstSegmentPrefix(s[1..], sep, p[1..]);
      assert s[1..][..|p| - 1] == p[1..];
    }
  }

  /** The `refpage` a node has after `fix_references`, given the page of
      the document (`home`) and the one it had before: a reference whose
      `refuri` names a relative link gets the first registry page whose
      local path is the link resolved against the home page's local path,
      if there is one; every other node keeps what it had. */
  function NewRefpage(tagname: string, attrs: map<string, string>, before: Option<Page>,
                      pages: seq<Page>, home: Page, resolve: (string, string) -> string): (r: Option<Page>)
    ensures r != before ==>
              tagname == "reference" && "refuri" in attrs && RelativeTarget(attrs["refuri"]).Some? &&
              r == FindPage(pages, [(LocalPath, resolve(home.localPath, RelativeTarget(attrs["refuri"]).value))]) &&
              r.Some? && r.value in pages && r.value.localPath == resolve(home.localPath, RelativeTarget(attrs["refuri"]).value)
    ensures tagname == "reference" && "refuri" in attrs && RelativeTarget(attrs["refuri"]).Some? &&
            FindPage(pages, [(LocalPath, resolve(home.localPath, RelativeTarget(attrs["refuri"]).value))]).Some? ==>
              r == FindPage(pages, [(LocalPath, resolve(home.localPath, RelativeTarget(attrs["refuri"]).value))])
  {
    if tagname == "reference" && "refuri" in attrs && RelativeTarget(attrs["refuri"]).Some? then
      var path := resolve(home.localPath, RelativeTarget(attrs["refuri"]).value);
      var found := FindPage(pages, [(LocalPath, path)]);
      MatchesOne(LocalPath, path);
      if found.Some? then found else before
    else before
  }

  /** The search for the document's registry page in `fix_references`. */
  method FindHome(pages: seq<Page>, docname: string) returns (home: Option<Page>)
    ensures home == HomePage(pages, docname)
  {
    home := None;
    var k := 0;
    while k < |pages|
      invariant 0 <= k <= |pages|
      invariant HomePage(pages, docname) == HomePage(pages[k..], docname)
    {
      if EndsWith(pages[k].localPath, docname) {
        home := Some(pages[k]);
        break;
      }
      assert pages[k..][1..] == pages[k + 1..];
      k := k + 1;
    }
    if k == |pages| { assert pages[k..] == []; }
  }

  /** The update `fix_references` makes to one node. */
  method FixNode(node: Element, pages: seq<Page>, home: Page, resolve: (string, string) -> string)
    modifies node
    ensures node.attrs == old(node.attrs)
    ensures node.refpage == NewRefpage(node.tagname, node.attrs, old(node.refpage), pages, home, resolve)
  {
    if node.tagname == "reference" && "refuri" in node.attrs {
      var uri := node.attrs["refuri"];
      var target := RelativeTarget(uri);
      if target.Some? {
        var realpage := FindPage(pages, [(LocalPath, resolve(home.localPath, target.value))]);
        if realpage.Some? {
          node.refpage := realpage;
        }
      }
    }
  }

  /** `fix_references(app, doctree, docname)`: `pages` is the page registry
      and `doctree` the elements of the document tree in traversal order;
      `resolve(base, rel)` stands for `os.path.abspath(os.path.join(base,
      rel))`. When no registry page belongs to the document nothing
      changes; otherwise each node's `refpage` becomes `NewRefpage` of it.
      No attribute other than `refpage` is written. */
  method FixReferences(pages: seq<Page>, doctree: seq<Element>, docname: string,
                       resolve: (string, string) -> string)
    modifies doctree
    ensures forall n :: n in doctree ==> n.attrs == old(n.attrs)
    ensures HomePage(pages, docname).None? ==> forall n :: n in doctree ==> n.refpage == old(n.refpage)
    ensures HomePage(pages, docname).Some? ==>
              forall n :: n in doctree ==>
                n.refpage == NewRefpage(n.tagname, n.attrs, old(n.refpage), pages, HomePage(pages, docname).value, resolve)
  {
    var home := FindHome(pages, docname);
    if home.None? {
      return;
    }
    var page := home.value;
    for i := 0 to |doctree|
      invariant forall n :: n in doctree ==> n.attrs == old(n.attrs)
      invariant forall n :: n in doctree[..i] ==>
                  n.refpage == NewRefpage(n.tagname, n.attrs, old(n.refpage), pages, page, resolve)
      invariant forall n :: n in doctree && n !in doctree[..i] ==> n.refpage == old(n.refpage)
    {
      assert doctree[..i + 1] == doctree[..i] + [doctree[i]];
      FixNode(doctree[i], pages, page, resolve);
    }
  }
}
