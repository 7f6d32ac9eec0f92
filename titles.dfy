/** The process-wide cache of page titles (class `TitlesCache`): a dictionary
    from a document's key (`hash(document)`) to the first child of the
    document's first top-level heading. One object stands for the class-level
    dictionary; every translator holds a reference to it. */
module Titles {
  import opened Docutils

  class TitlesCache {
    var titles: map<int, Child>

    constructor ()
      ensures titles == map[]
    {
      titles := map[];
    }

    /** `set_title`: a plain dictionary store, so a later call overwrites. */
    method SetTitle(document: int, title: Child)
      modifies this
      ensures titles == old(titles)[document := title]
      ensures HasTitle(document) && GetTitle(document) == Some(title)
      ensures forall d :: d != document ==> GetTitle(d) == old(GetTitle(d))
    {
      titles := titles[document := title];
    }

    /** `get_title`: the cached title, or None. */
    function GetTitle(document: int): (r: Option<Child>)
      reads this
      ensures r.None? <==> !HasTitle(document)
      ensures r.Some? ==> r.value == titles[document]
    {
      if document in titles then Some(titles[document]) else None
    }

    /** `has_title` */
    predicate HasTitle(document: int)
      reads this
    {
      document in titles
    }
  }
}
