/**
 * A parsed KML document as ElementTree presents it, and the two path queries
 * the uploader runs on it: `findall('.//kml:Placemark')` (every descendant
 * with that tag, in document order) and `find('./kml:A/kml:B')` (the first
 * element reached by following child steps, in document order).
 */
module KmlDocument {
  import opened Wrappers
  import opened Seqs

  /** The KML 2.2 namespace URI, bound to the `kml` prefix in every query. */
  const KmlNamespaceUri: string := "http://www.opengis.net/kml/2.2"

  /**
   * An element: the namespace URI of its tag (the `{uri}` the parser puts in
   * front of the local name), the local name, its text (None when absent)
   * and its children.
   */
  datatype Element = Element(uri: string, local: string, text: Option<string>, children: seq<Element>)

  /** Whether the element's tag is `kml:<local>`: the KML URI and that local name. */
  predicate IsKml(e: Element, local: string) {
    e.uri == KmlNamespaceUri && e.local == local
  }

  /** The elements of `es` whose tag is `kml:<local>`, in order. */
  function Named(es: seq<Element>, local: string): (r: seq<Element>)
    ensures forall i :: 0 <= i < |r| ==> IsKml(r[i], local)
  {
    if es == [] then []
    else Named(es[..|es| - 1], local) + (if IsKml(es[|es| - 1], local) then [es[|es| - 1]] else [])
  }

  /**
   * Filtering by tag keeps exactly the elements with that tag, in their
   * original order.
   */
  lemma {:induction false} NamedSelection(es: seq<Element>, local: string)
    ensures SubseqOf(Named(es, local), es)
    ensures forall x :: x in Named(es, local) <==> x in es && IsKml(x, local)
  {
    if es != [] {
      var init := es[..|es| - 1];
      var last := es[|es| - 1];
      NamedSelection(init, local);
      assert es == init + [last];
      if IsKml(last, local) {
        SubseqKeep(Named(init, local), init, last);
        assert Named(es, local) == Named(init, local) + [last];
      } else {
        SubseqSkip(Named(init, local), init, last);
        assert Named(es, local) == Named(init, local);
      }
    }
  }

  /** The trees rooted at `cs`, in document (pre-)order. */
  function Preorder(cs: seq<Element>): seq<Element>
  {
    if cs == [] then [] else [cs[0]] + Preorder(cs[0].children) + Preorder(cs[1..])
  }

  /** `root.findall('.//kml:Placemark')`: every proper descendant that is a Placemark, in document order. */
  function Placemarks(root: Element): (r: seq<Element>)
    ensures forall i :: 0 <= i < |r| ==> IsKml(r[i], "Placemark")
  {
    Named(Preorder(root.children), "Placemark")
  }

  /**
   * The Placemarks are the descendants tagged `kml:Placemark`, all of them and
   * in document order.
   */
  lemma PlacemarksInDocumentOrder(root: Element)
    ensures SubseqOf(Placemarks(root), Preorder(root.children))
    ensures forall x :: x in Placemarks(root) <==> x in Preorder(root.children) && IsKml(x, "Placemark")
  {
    NamedSelection(Preorder(root.children), "Placemark");
  }

  /** One child step of a path: for each element in turn, its children named `kml:<local>`. */
  function ChildStep(es: seq<Element>, local: string): (r: seq<Element>)
    ensures forall i :: 0 <= i < |r| ==> IsKml(r[i], local)
  {
    if es == [] then [] else Named(es[0].children, local) + ChildStep(es[1..], local)
  }

  /** Every element reached from `es` by the child steps of `path`, in document order. */
  function Select(es: seq<Element>, path: seq<string>): (r: seq<Element>)
    ensures path != [] ==> forall i :: 0 <= i < |r| ==> IsKml(r[i], path[|path| - 1])
    decreases |path|
  {
    if path == [] then es else Select(ChildStep(es, path[0]), path[1..])
  }

  /** `e.find('./kml:p0/kml:p1/...')`: the first element the path reaches, or None. */
  function Find(e: Element, path: seq<string>): (r: Option<Element>)
    ensures path != [] && r.Some? ==> IsKml(r.value, path[|path| - 1])
  {
    var m := Select([e], path);
    if m == [] then None else Some(m[0])
  }

  /** A one-step `find` is the first child with that tag. */
  lemma {:induction false} FindChild(e: Element, local: string)
    ensures Find(e, [local]) == FirstNamed(e.children, local)
  {
    assert ChildStep([e], local) == Named(e.children, local) + ChildStep([], local);
    assert Select([e], [local]) == Select(ChildStep([e], local), []);
    FirstNamedIsHead(e.children, local);
  }

  /** The first element of `es` with tag `kml:<local>`, scanning from the front. */
  function FirstNamed(es: seq<Element>, local: string): (r: Option<Element>)
    ensures r.Some? ==> r.value in es && IsKml(r.value, local)
    ensures r.None? <==> forall i :: 0 <= i < |es| ==> !IsKml(es[i], local)
  {
    if es == [] then None
    else if IsKml(es[0], local) then Some(es[0])
    else FirstNamed(es[1..], local)
  }

  lemma {:induction false} FirstNamedIsHead(es: seq<Element>, local: string)
    ensures var m := Named(es, local); FirstNamed(es, local) == if m == [] then None else Some(m[0])
  {
    if es != [] {
      NamedCons(es[0], es[1..], local);
      assert [es[0]] + es[1..] == es;
      FirstNamedIsHead(es[1..], local);
    }
  }

  lemma {:induction false} NamedCons(x: Element, es: seq<Element>, local: string)
    ensures Named([x] + es, local) == (if IsKml(x, local) then [x] else []) + Named(es, local)
    decreases |es|
  {
    if es == [] {
      assert ([x] + es)[..0] == [];
    } else {
      var xs := [x] + es;
      assert xs[..|xs| - 1] == [x] + es[..|es| - 1];
      assert xs[|xs| - 1] == es[|es| - 1];
      NamedCons(x, es[..|es| - 1], local);
    }
  }
}
