/**
 * An abstraction of the parsed HTML the scraper navigates. A table cell is
 * its text, its own optional `title` attribute and its child elements; a row
 * is its cells plus whether it holds a header cell; an event page is
 * reduced to the parts the scraper reads.
 */
module Markup {
  import opened Wrappers

  datatype Cell = Cell(text: string, title: Option<string>, children: seq<Cell>)

  /** A table row: its `td` cells, and whether it contains a `th`. */
  datatype Row = Row(hasHeader: bool, cells: seq<Cell>)

  /**
   * An event detail page: the texts of its `h4` headings, the text node that
   * follows the first heading (if any), and the rows of the results table
   * after the `results` anchor (absent when the anchor or table is).
   */
  datatype EventPage = EventPage(headings: seq<string>, info: Option<string>, table: Option<seq<Row>>)

  /**
   * The `title` of the first element, in document order, among `cs` and
   * their descendants that carries one: `tag.find(lambda t: t.has_attr("title"))`
   * applied to the children of a tag.
   */
  function FindTitle(cs: seq<Cell>): (r: Option<string>)
    decreases cs
  {
    if |cs| == 0 then None
    else if cs[0].title.Some? then cs[0].title
    else
      match FindTitle(cs[0].children)
      case Some(t) => Some(t)
      case None => FindTitle(cs[1..])
  }

  /** The `title` attributes (or their absence) of `cs` and all their descendants, in document order. */
  function Titles(cs: seq<Cell>): (ts: seq<Option<string>>)
    decreases cs
  {
    if |cs| == 0 then []
    else [cs[0].title] + Titles(cs[0].children) + Titles(cs[1..])
  }

  /** The first present value of `xs`. */
  function FirstSome<T>(xs: seq<Option<T>>): (r: Option<T>)
    ensures r.None? <==> forall i :: 0 <= i < |xs| ==> xs[i].None?
    ensures r.Some? ==> exists i :: 0 <= i < |xs| && xs[i] == r && forall j :: 0 <= j < i ==> xs[j].None?
  {
    if |xs| == 0 then None
    else if xs[0].Some? then xs[0]
    else
      var r := FirstSome(xs[1..]);
      assert r.Some? ==> exists i :: 1 <= i < |xs| && xs[i] == r && forall j :: 0 <= j < i ==> xs[j].None? by {
        if r.Some? {
          var i :| 0 <= i < |xs[1..]| && xs[1..][i] == r && forall j :: 0 <= j < i ==> xs[1..][j].None?;
          assert xs[i + 1] == r;
          assert forall j :: 1 <= j < i + 1 ==> xs[j] == xs[1..][j - 1];
        }
      }
      r
  }

  lemma {:induction false} FirstSomeAppend<T>(a: seq<Option<T>>, b: seq<Option<T>>)
    ensures FirstSome(a + b) == if FirstSome(a).Some? then FirstSome(a) else FirstSome(b)
  {
    if |a| > 0 {
      assert (a + b)[1..] == a[1..] + b;
      FirstSomeAppend(a[1..], b);
    } else {
      assert a + b == b;
    }
  }

  /**
   * The search finds the first title in document order: the cells' own
   * titles before their descendants', and earlier siblings before later ones.
   */
  lemma {:induction false} FindTitleIsFirstInDocumentOrder(cs: seq<Cell>)
    ensures FindTitle(cs) == FirstSome(Titles(cs))
    decreases cs
  {
    if |cs| > 0 {
      FindTitleIsFirstInDocumentOrder(cs[0].children);
      FindTitleIsFirstInDocumentOrder(cs[1..]);
      var head: seq<Option<string>> := [cs[0].title];
      FirstSomeAppend(head + Titles(cs[0].children), Titles(cs[1..]));
      FirstSomeAppend(head, Titles(cs[0].children));
    }
  }

  /** The search fails exactly when no element below the cells has a title. */
  lemma FindTitleNoneIff(cs: seq<Cell>)
    ensures FindTitle(cs).None? <==> forall i :: 0 <= i < |Titles(cs)| ==> Titles(cs)[i].None?
  {
    FindTitleIsFirstInDocumentOrder(cs);
  }
}
