/** Attached images: `imgtag`, which renders an `<ac:image>` element with
    its attributes lower-cased and sorted by name, and the attribute set and
    trailing suffix `visit_image` hands it. */
module Images {
  import opened PyStrings
  import opened Docutils

  /** A keyword argument of `imgtag`: `None`, a string, or a list of strings. */
  datatype AttValue = NoValue | Text(s: string) | Words(items: seq<string>)

  type Att = (string, AttValue)

  /** Python's `<` on strings: code-point lexicographic order. */
  predicate LexLess(a: string, b: string) {
    if |a| == 0 then |b| > 0
    else if |b| == 0 then false
    else if a[0] != b[0] then a[0] < b[0]
    else LexLess(a[1..], b[1..])
  }

  lemma {:induction false} LexLessIrreflexive(a: string)
    ensures !LexLess(a, a)
  {
    if |a| > 0 { LexLessIrreflexive(a[1..]); }
  }

  lemma {:induction false} LexLessTotal(a: string, b: string)
    ensures a == b || LexLess(a, b) || LexLess(b, a)
  {
    if |a| > 0 && |b| > 0 && a[0] == b[0] {
      LexLessTotal(a[1..], b[1..]);
      if a[1..] == b[1..] {
        assert a == [a[0]] + a[1..] && b == [b[0]] + b[1..];
      }
    }
  }

  lemma {:induction false} LexLessTransitive(a: string, b: string, c: string)
    requires LexLess(a, b) && LexLess(b, c)
    ensures LexLess(a, c)
  {
    if |a| > 0 && a[0] == b[0] && b[0] == c[0] {
      LexLessTransitive(a[1..], b[1..], c[1..]);
    }
  }

  /** Names strictly increasing: sorted, and no name twice. */
  predicate StrictlySorted(items: seq<Att>) {
    forall i, j :: 0 <= i < j < |items| ==> LexLess(items[i].0, items[j].0)
  }

  /** The value stored under `name`, if any. */
  function Lookup(items: seq<Att>, name: string): Option<AttValue> {
    if |items| == 0 then None
    else if items[0].0 == name then Some(items[0].1)
    else Lookup(items[1..], name)
  }

  /** Python's `atts[name] = value` on a dictionary kept in name order. */
  function Insert(items: seq<Att>, p: Att): seq<Att> {
    if |items| == 0 then [p]
    else if items[0].0 == p.0 then [p] + items[1..]
    else if LexLess(p.0, items[0].0) then [p] + items
    else [items[0]] + Insert(items[1..], p)
  }

  lemma {:induction false} InsertLookup(items: seq<Att>, p: Att, name: string)
    ensures Lookup(Insert(items, p), name) == if name == p.0 then Some(p.1) else Lookup(items, name)
  {
    if |items| > 0 && items[0].0 != p.0 && !LexLess(p.0, items[0].0) {
      InsertLookup(items[1..], p, name);
    }
  }

  /** Every name in `Insert(items, p)` is `p`'s or one of `items`'. */
  lemma {:induction false} InsertNames(items: seq<Att>, p: Att)
    ensures forall k :: 0 <= k < |Insert(items, p)| ==>
              Insert(items, p)[k].0 == p.0 || exists j :: 0 <= j < |items| && items[j].0 == Insert(items, p)[k].0
  {
    if |items| > 0 && items[0].0 != p.0 && !LexLess(p.0, items[0].0) {
      InsertNames(items[1..], p);
      var r := Insert(items, p);
      forall k | 0 <= k < |r|
        ensures r[k].0 == p.0 || exists j :: 0 <= j < |items| && items[j].0 == r[k].0
      {
        if k > 0 {
          assert r[k] == Insert(items[1..], p)[k - 1];
          if r[k].0 != p.0 {
            var j :| 0 <= j < |items[1..]| && items[1..][j].0 == r[k].0;
            assert items[j + 1].0 == r[k].0;
          }
        }
      }
    }
  }

  lemma {:induction false} InsertSorted(items: seq<Att>, p: Att)
    requires StrictlySorted(items)
    ensures StrictlySorted(Insert(items, p))
  {
    if |items| == 0 {
    } else if items[0].0 == p.0 {
    } else if LexLess(p.0, items[0].0) {
      var r := [p] + items;
      forall i, j | 0 <= i < j < |r| ensures LexLess(r[i].0, r[j].0) {
        if i == 0 && j > 1 { LexLessTransitive(p.0, items[0].0, items[j - 1].0); }
      }
    } else {
      var rest := Insert(items[1..], p);
      InsertSorted(items[1..], p);
      InsertNames(items[1..], p);
      LexLessTotal(p.0, items[0].0);
      var r := [items[0]] + rest;
      forall i, j | 0 <= i < j < |r| ensures LexLess(r[i].0, r[j].0) {
        if i == 0 {
          if rest[j - 1].0 != p.0 {
            var m :| 0 <= m < |items[1..]| && items[1..][m].0 == rest[j - 1].0;
            assert items[m + 1].0 == rest[j - 1].0;
          }
        }
      }
    }
  }

  /** The attribute dictionary `imgtag` builds from its keyword arguments,
      in sorted order: names lower-cased, a later name overriding an earlier
      one that lower-cases the same. */
  function Collect(attributes: seq<Att>): seq<Att> {
    if |attributes| == 0 then []
    else
      var last := attributes[|attributes| - 1];
      Insert(Collect(attributes[..|attributes| - 1]), (Lower(last.0), last.1))
  }

  /** The value of the last keyword argument whose lower-cased name is `name`. */
  function LastValue(attributes: seq<Att>, name: string): Option<AttValue> {
    if |attributes| == 0 then None
    else if Lower(attributes[|attributes| - 1].0) == name then Some(attributes[|attributes| - 1].1)
    else LastValue(attributes[..|attributes| - 1], name)
  }

  /** The collected attributes are sorted by name, every name is lower case,
      and each name carries the value of its last keyword argument. */
  lemma {:induction false} CollectSpec(attributes: seq<Att>)
    ensures StrictlySorted(Collect(attributes))
    ensures forall name :: Lookup(Collect(attributes), name) == LastValue(attributes, name)
    ensures forall k :: 0 <= k < |Collect(attributes)| ==> IsLowered(Collect(attributes)[k].0)
  {
    if |attributes| > 0 {
      var init := attributes[..|attributes| - 1];
      var last := attributes[|attributes| - 1];
      var p := (Lower(last.0), last.1);
      CollectSpec(init);
      InsertSorted(Collect(init), p);
      forall name ensures Lookup(Collect(attributes), name) == LastValue(attributes, name) {
        InsertLookup(Collect(init), p, name);
      }
      InsertNames(Collect(init), p);
      LowerIsLowered(last.0);
    }
  }

  lemma LowerIsLowered(s: string)
    ensures IsLowered(Lower(s))
  {
  }

  /** `Lookup` finds every entry of a sorted list. */
  lemma {:induction false} LookupSorted(items: seq<Att>, k: nat)
    requires StrictlySorted(items) && k < |items|
    ensures Lookup(items, items[k].0) == Some(items[k].1)
  {
    if k > 0 {
      LexLessIrreflexive(items[0].0);
      assert items[1..][k - 1] == items[k];
      LookupSorted(items[1..], k - 1);
    }
  }

  /** `value` as `imgtag` prints it: a list space-joined, anything else
      through `str`. */
  function AttText(value: AttValue): string {
    match value
    case NoValue => "None"
    case Text(s) => s
    case Words(items) => Join(" ", items)
  }

  /** `ac:name="value"` */
  function AttPart(a: Att, attval: string -> string): string {
    "ac:" + Lower(a.0) + "=\"" + attval(AttText(a.1)) + "\""
  }

  function AttParts(items: seq<Att>, attval: string -> string): (r: seq<string>)
    ensures |r| == |items|
    ensures forall k :: 0 <= k < |items| ==> r[k] == AttPart(items[k], attval)
  {
    if |items| == 0 then [] else AttParts(items[..|items| - 1], attval) + [AttPart(items[|items| - 1], attval)]
  }

  predicate HasNoValue(items: seq<Att>) {
    exists k :: 0 <= k < |items| && items[k].1 == NoValue
  }

  /** The `<ac:image>` element for a sorted attribute list, or the assertion
      failure `imgtag` raises on a `None` value. */
  function ImageElement(filename: string, suffix: string, items: seq<Att>,
                        attval: string -> string): Result<string> {
    if HasNoValue(items) then Err(AssertionError(""))
    else Ok(ImageMarkup(filename, suffix, AttParts(items, attval)))
  }

  /** The image macro around the rendered attributes. */
  function ImageMarkup(filename: string, suffix: string, parts: seq<string>): string {
    Concat(["<ac:image ", Join(" ", parts), ">",
            "<ri:attachment ri:filename=\"", filename, "\" />", "</ac:image>", suffix])
  }

  /** `imgtag` fails exactly when some attribute's final value is `None`. */
  lemma CollectHasNoValue(attributes: seq<Att>)
    ensures HasNoValue(Collect(attributes)) <==> exists name :: LastValue(attributes, name) == Some(NoValue)
  {
    var items := Collect(attributes);
    if HasNoValue(items) {
      var k :| 0 <= k < |items| && items[k].1 == NoValue;
      NoValueFromEntry(attributes, k);
    }
    if exists name :: LastValue(attributes, name) == Some(NoValue) {
      var name :| LastValue(attributes, name) == Some(NoValue);
      EntryFromNoValue(attributes, name);
    }
  }

  /** A `None` entry of the dictionary is the last value of its name. */
  lemma NoValueFromEntry(attributes: seq<Att>, k: nat)
    requires k < |Collect(attributes)| && Collect(attributes)[k].1 == NoValue
    ensures LastValue(attributes, Collect(attributes)[k].0) == Some(NoValue)
  {
    CollectSpec(attributes);
    LookupSorted(Collect(attributes), k);
  }

  /** A name whose last value is `None` has a `None` entry. */
  lemma EntryFromNoValue(attributes: seq<Att>, name: string)
    requires LastValue(attributes, name) == Some(NoValue)
    ensures HasNoValue(Collect(attributes))
  {
    var items := Collect(attributes);
    CollectSpec(attributes);
    assert Lookup(items, name) == Some(NoValue);
    LookupFound(items, name);
    var k :| 0 <= k < |items| && items[k] == (name, NoValue);
    assert items[k].1 == NoValue;
  }

  /** `imgtag`: collects the keyword arguments into a dictionary under
      lower-cased names, then renders them in sorted order. */
  method ImgTag(filename: string, suffix: string, attributes: seq<Att>, attval: string -> string)
      returns (r: Result<string>)
    ensures r == ImageElement(filename, suffix, Collect(attributes), attval)
    ensures r.Err? <==> exists name :: LastValue(attributes, name) == Some(NoValue)
    ensures r.Err? ==> r.error == AssertionError("")
  {
    CollectHasNoValue(attributes);
    var atts := CollectAttributes(attributes);
    var parts := RenderAttributes(atts, attval);
    if parts.None? {
      return Err(AssertionError(""));
    }
    r := Ok(ImageMarkup(filename, suffix, parts.value));
  }

  /** The first loop of `imgtag`: the dictionary of lower-cased names. */
  method CollectAttributes(attributes: seq<Att>) returns (atts: seq<Att>)
    ensures atts == Collect(attributes)
  {
    atts := [];
    for i := 0 to |attributes|
      invariant atts == Collect(attributes[..i])
    {
      assert attributes[..i + 1][..i] == attributes[..i];
      atts := Insert(atts, (Lower(attributes[i].0), attributes[i].1));
    }
    assert attributes[..|attributes|] == attributes;
  }

  /** The second loop of `imgtag`: one `ac:name="value"` part per entry, or
      None when the assertion on a `None` value fails. */
  method RenderAttributes(atts: seq<Att>, attval: string -> string) returns (parts: Option<seq<string>>)
    ensures parts.None? <==> HasNoValue(atts)
    ensures parts.Some? ==> parts.value == AttParts(atts, attval)
  {
    var done: seq<string> := [];
    for j := 0 to |atts|
      invariant done == AttParts(atts[..j], attval)
      invariant !HasNoValue(atts[..j])
    {
      if atts[j].1 == NoValue {
        return None;
      }
      assert atts[..j + 1][..j] == atts[..j];
      done := done + [AttPart(atts[j], attval)];
    }
    assert atts[..|atts|] == atts;
    parts := Some(done);
  }

  /** What `Lookup` finds is an entry of the list. */
  lemma {:induction false} LookupFound(items: seq<Att>, name: string)
    requires Lookup(items, name).Some?
    ensures exists k :: 0 <= k < |items| && items[k] == (name, Lookup(items, name).value)
  {
    if items[0].0 != name {
      LookupFound(items[1..], name);
      var k :| 0 <= k < |items[1..]| && items[1..][k] == (name, Lookup(items[1..], name).value);
      assert items[k + 1] == items[1..][k];
    }
  }

  /** The keyword arguments `visit_image` passes to `imgtag`, or the
      `KeyError` of a node without `uri`. */
  function ImageAttributes(attrs: map<string, string>): (r: Result<seq<Att>>)
    ensures r.Err? <==> "uri" !in attrs
  {
    if "uri" !in attrs then Err(KeyError("uri"))
    else
      var uri := attrs["uri"];
      Ok([("alt", Text(if "alt" in attrs then attrs["alt"] else uri)), ("thumbnail", Text("true"))]
         + (if "width" in attrs then [("width", Text(attrs["width"]))] else [])
         + (if "name" in attrs then [("title", Text(attrs["name"]))] else []))
  }

  /** An image inside a text element, or inside a reference that is not
      itself inside one, is inline and gets no trailing newline. Because a
      `nodes.reference` is a `nodes.TextElement`, the second case is already
      part of the first. */
  function ImageSuffix(parent: Kind, grandparent: Kind): (r: string)
    ensures r == "" <==> IsTextElement(parent)
    ensures r != "" ==> r == "\n"
  {
    if IsTextElement(parent) || (parent == Reference && !IsTextElement(grandparent)) then "" else "\n"
  }

  /** Inserting a name above every present one appends it. */
  lemma {:induction false} InsertGreatest(items: seq<Att>, p: Att)
    requires forall k :: 0 <= k < |items| ==> LexLess(items[k].0, p.0)
    ensures Insert(items, p) == items + [p]
  {
    if |items| > 0 {
      LexLessIrreflexive(p.0);
      if LexLess(p.0, items[0].0) { LexLessTransitive(p.0, items[0].0, p.0); }
      InsertGreatest(items[1..], p);
      assert [items[0]] + (items[1..] + [p]) == items + [p];
    }
  }

  lemma CollectStep(attributes: seq<Att>)
    requires |attributes| > 0
    ensures Collect(attributes) == Insert(Collect(attributes[..|attributes| - 1]),
              (Lower(attributes[|attributes| - 1].0), attributes[|attributes| - 1].1))
  {
  }

  lemma LowerLowered(s: string)
    requires forall i :: 0 <= i < |s| ==> 'a' <= s[i] <= 'z'
    ensures Lower(s) == s
  {
    var r := Lower(s);
    forall i | 0 <= i < |s| ensures r[i] == s[i] { assert !IsUpper(s[i]); }
  }

  /** The names `visit_image` passes, in Python's string order. */
  lemma ImageNamesOrdered()
    ensures LexLess("alt", "thumbnail") && LexLess("thumbnail", "title") && LexLess("title", "width")
  {
    assert LexLess("humbnail", "itle");
  }

  /** One image name before another in Python's string order. */
  lemma Before(x: string, y: string)
    requires (x, y) in {("alt", "thumbnail"), ("alt", "title"), ("alt", "width"),
                        ("thumbnail", "title"), ("thumbnail", "width"), ("title", "width")}
    ensures LexLess(x, y) && !LexLess(y, x)
  {
    ImageNamesOrdered();
    if (x, y) == ("alt", "title") || (x, y) == ("alt", "width") {
      LexLessTransitive("alt", "thumbnail", "title");
    }
    if (x, y) == ("alt", "width") || (x, y) == ("thumbnail", "width") {
      LexLessTransitive("thumbnail", "title", "width");
    }
    if (x, y) == ("alt", "width") {
      LexLessTransitive("alt", "title", "width");
    }
    if LexLess(y, x) {
      LexLessTransitive(x, y, x);
      LexLessIrreflexive(x);
    }
  }

  lemma LowerLetters(s: string)
    requires s in {"alt", "thumbnail", "width", "title"}
    ensures Lower(s) == s
  {
    forall i | 0 <= i < |s| ensures 'a' <= s[i] <= 'z' { }
    LowerLowered(s);
  }

  /** Collecting arguments whose names are already lower case and strictly
      increasing gives them back as they are. */
  lemma {:induction false} CollectOrdered(atts: seq<Att>)
    requires StrictlySorted(atts)
    requires forall k :: 0 <= k < |atts| ==> Lower(atts[k].0) == atts[k].0
    ensures Collect(atts) == atts
  {
    if |atts| > 0 {
      var init, last := atts[..|atts| - 1], atts[|atts| - 1];
      assert forall k :: 0 <= k < |init| ==> init[k] == atts[k];
      CollectOrdered(init);
      InsertGreatest(init, last);
      assert init + [last] == atts;
    }
  }

  /** Inserting a name that falls just before the last entry. */
  lemma {:induction false} InsertBeforeLast(xs: seq<Att>, w: Att, n: Att)
    requires forall k :: 0 <= k < |xs| ==> LexLess(xs[k].0, n.0)
    requires LexLess(n.0, w.0)
    ensures Insert(xs + [w], n) == xs + [n, w]
  {
    LexLessIrreflexive(n.0);
    if |xs| > 0 {
      if LexLess(n.0, xs[0].0) { LexLessTransitive(n.0, xs[0].0, n.0); }
      assert (xs + [w])[1..] == xs[1..] + [w];
      InsertBeforeLast(xs[1..], w, n);
      assert [xs[0]] + (xs[1..] + [n, w]) == xs + [n, w];
    }
  }

  /** The attributes `visit_image` passes all carry text, so `imgtag` never
      fails on them. */
  lemma ImageAttributesHaveText(attrs: map<string, string>)
    requires "uri" in attrs
    ensures forall k :: 0 <= k < |ImageAttributes(attrs).value| ==> ImageAttributes(attrs).value[k].1.Text?
  {
  }

  /** The order and case of the four names `visit_image` uses. */
  lemma ImageNameFacts(a: string, t: string, n: string, w: string)
    requires a == "alt" && t == "thumbnail" && n == "title" && w == "width"
    ensures LexLess(a, t) && LexLess(a, n) && LexLess(a, w)
    ensures LexLess(t, n) && LexLess(t, w) && LexLess(n, w)
    ensures Lower(a) == a && Lower(t) == t && Lower(n) == n && Lower(w) == w
  {
    Before(a, t);
    Before(a, n);
    Before(a, w);
    Before(t, n);
    Before(t, w);
    Before(n, w);
    LowerLetters(a);
    LowerLetters(t);
    LowerLetters(n);
    LowerLetters(w);
  }

  /** Arguments named in increasing order come out as they went in. */
  lemma CollectTwo(a: Att, t: Att)
    requires LexLess(a.0, t.0)
    requires Lower(a.0) == a.0 && Lower(t.0) == t.0
    ensures Collect([a, t]) == [a, t]
  {
    CollectOrdered([a, t]);
  }

  lemma CollectThree(a: Att, t: Att, x: Att)
    requires LexLess(a.0, t.0) && LexLess(a.0, x.0) && LexLess(t.0, x.0)
    requires Lower(a.0) == a.0 && Lower(t.0) == t.0 && Lower(x.0) == x.0
    ensures Collect([a, t, x]) == [a, t, x]
  {
    CollectOrdered([a, t, x]);
  }

  /** `title` is inserted before `width`, which came first. */
  lemma CollectWidthTitle(a: Att, t: Att, w: Att, n: Att)
    requires LexLess(a.0, t.0) && LexLess(a.0, w.0) && LexLess(t.0, w.0)
    requires LexLess(a.0, n.0) && LexLess(t.0, n.0) && LexLess(n.0, w.0)
    requires Lower(a.0) == a.0 && Lower(t.0) == t.0 && Lower(w.0) == w.0 && Lower(n.0) == n.0
    ensures Collect([a, t, w, n]) == [a, t, n, w]
  {
    CollectOrdered([a, t, w]);
    assert [a, t, w, n][..3] == [a, t, w] && [a, t] + [w] == [a, t, w];
    CollectStep([a, t, w, n]);
    assert (Lower(n.0), n.1) == n;
    InsertBeforeLast([a, t], w, n);
    assert [a, t] + [n, w] == [a, t, n, w];
  }

  function AltOf(attrs: map<string, string>): string
    requires "uri" in attrs
  {
    if "alt" in attrs then attrs["alt"] else attrs["uri"]
  }

  lemma ImageWithWidthAndName(attrs: map<string, string>)
    requires "uri" in attrs && "width" in attrs && "name" in attrs
    ensures Collect(ImageAttributes(attrs).value) ==
              [("alt", Text(AltOf(attrs))), ("thumbnail", Text("true")),
               ("title", Text(attrs["name"])), ("width", Text(attrs["width"]))]
  {
    var a, t := ("alt", Text(AltOf(attrs))), ("thumbnail", Text("true"));
    var w, n := ("width", Text(attrs["width"])), ("title", Text(attrs["name"]));
    assert ImageAttributes(attrs).value == [a, t, w, n];
    ImageNameFacts(a.0, t.0, n.0, w.0);
    CollectWidthTitle(a, t, w, n);
  }

  lemma ImageWithWidth(attrs: map<string, string>)
    requires "uri" in attrs && "width" in attrs && "name" !in attrs
    ensures Collect(ImageAttributes(attrs).value) ==
              [("alt", Text(AltOf(attrs))), ("thumbnail", Text("true")), ("width", Text(attrs["width"]))]
  {
    var a, t, w := ("alt", Text(AltOf(attrs))), ("thumbnail", Text("true")), ("width", Text(attrs["width"]));
    assert ImageAttributes(attrs).value == [a, t, w];
    ImageNameFacts(a.0, t.0, "title", w.0);
    CollectThree(a, t, w);
  }

  lemma ImageWithName(attrs: map<string, string>)
    requires "uri" in attrs && "width" !in attrs && "name" in attrs
    ensures Collect(ImageAttributes(attrs).value) ==
              [("alt", Text(AltOf(attrs))), ("thumbnail", Text("true")), ("title", Text(attrs["name"]))]
  {
    var a, t, n := ("alt", Text(AltOf(attrs))), ("thumbnail", Text("true")), ("title", Text(attrs["name"]));
    assert ImageAttributes(attrs).value == [a, t, n];
    ImageNameFacts(a.0, t.0, n.0, "width");
    CollectThree(a, t, n);
  }

  lemma ImageWithNeither(attrs: map<string, string>)
    requires "uri" in attrs && "width" !in attrs && "name" !in attrs
    ensures Collect(ImageAttributes(attrs).value) == [("alt", Text(AltOf(attrs))), ("thumbnail", Text("true"))]
  {
    var a, t := ("alt", Text(AltOf(attrs))), ("thumbnail", Text("true"));
    assert ImageAttributes(attrs).value == [a, t];
    ImageNameFacts(a.0, t.0, "title", "width");
    CollectTwo(a, t);
  }

  /** The attributes of the image `visit_image` emits, in order: `alt` (the
      uri by default), `thumbnail`, then `title` and `width` when the node
      has `name` and `width`. */
  function SortedImageAttributes(attrs: map<string, string>): seq<Att>
    requires "uri" in attrs
  {
    [("alt", Text(AltOf(attrs))), ("thumbnail", Text("true"))]
    + (if "name" in attrs then [("title", Text(attrs["name"]))] else [])
    + (if "width" in attrs then [("width", Text(attrs["width"]))] else [])
  }

  /** Collecting and sorting the keyword arguments of `visit_image` gives
      the attributes above. */
  lemma VisitImageAttributes(attrs: map<string, string>)
    requires "uri" in attrs
    ensures Collect(ImageAttributes(attrs).value) == SortedImageAttributes(attrs)
  {
    if "width" in attrs && "name" in attrs {
      ImageWithWidthAndName(attrs);
    } else if "width" in attrs {
      ImageWithWidth(attrs);
    } else if "name" in attrs {
      ImageWithName(attrs);
    } else {
      ImageWithNeither(attrs);
    }
  }

  /** `imgtag` never fails on the attributes `visit_image` passes. */
  lemma VisitImageSucceeds(attrs: map<string, string>, filename: string, suffix: string,
                           attval: string -> string)
    requires "uri" in attrs
    ensures ImageElement(filename, suffix, Collect(ImageAttributes(attrs).value), attval).Ok?
  {
    CollectedHaveValues(attrs);
  }

  /** The element `visit_image` appends for a node with `uri`. */
  function VisitImageMarkup(attrs: map<string, string>, suffix: string, attval: string -> string): string
    requires "uri" in attrs
  {
    ImageMarkup(Basename(attrs["uri"]), suffix, AttParts(SortedImageAttributes(attrs), attval))
  }

  /** The `imgtag` call of `visit_image` for a node with `uri`: the element
      for the file's base name, which never fails. */
  method VisitImageTag(attrs: map<string, string>, suffix: string, attval: string -> string)
      returns (tag: string)
    requires "uri" in attrs
    ensures tag == VisitImageMarkup(attrs, suffix, attval)
  {
    var filename := Basename(attrs["uri"]);
    var r := ImgTag(filename, suffix, ImageAttributes(attrs).value, attval);
    VisitImageSucceeds(attrs, filename, suffix, attval);
    VisitImageAttributes(attrs);
    tag := r.value;
  }

  lemma CollectedHaveValues(attrs: map<string, string>)
    requires "uri" in attrs
    ensures !HasNoValue(Collect(ImageAttributes(attrs).value))
  {
    var atts := ImageAttributes(attrs).value;
    ImageAttributesHaveText(attrs);
    CollectHasNoValue(atts);
    forall name ensures LastValue(atts, name) != Some(NoValue) {
      LastValueFound(atts, name);
    }
  }

  /** What `LastValue` finds is the value of one of the arguments. */
  lemma {:induction false} LastValueFound(attributes: seq<Att>, name: string)
    ensures LastValue(attributes, name).Some? ==>
              exists k :: 0 <= k < |attributes| && attributes[k].1 == LastValue(attributes, name).value
  {
    if |attributes| > 0 && Lower(attributes[|attributes| - 1].0) != name {
      var init := attributes[..|attributes| - 1];
      LastValueFound(init, name);
      if LastValue(init, name).Some? {
        var k :| 0 <= k < |init| && init[k].1 == LastValue(init, name).value;
        assert attributes[k] == init[k];
      }
    }
  }
}
