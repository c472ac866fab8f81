/**
 * The structured-document tree shared by every extractor, the index
 * aggregator and the differ:
 *
 *   Application{name, domain}
 *     Component{name, description}
 *       Type{name, kind}
 *         Property{name, type, required}
 *       Function{name, method, path}
 *         Description (text), Returns{type, reference}, Calls, CalledBy
 *
 * Attributes are kept in the order the scripts set them; an element without
 * text has text "".
 */
module Schema {
  import opened Wrappers

  type Attrs = seq<(string, string)>

  datatype Element = Element(tag: string, attrs: Attrs, text: string, children: seq<Element>)

  /** The value of the first attribute called `key`, as `Element.get(key)` reads it. */
  function Attr(e: Element, key: string): Option<string>
  {
    Lookup(e.attrs, key)
  }

  /**
   * The value paired with the first occurrence of `key` in a list of pairs
   * kept in insertion order: how both XML attributes and Python dicts are read.
   */
  function Lookup<V>(entries: seq<(string, V)>, key: string): (r: Option<V>)
    ensures r.None? <==> forall i :: 0 <= i < |entries| ==> entries[i].0 != key
  {
    if |entries| == 0 then None
    else if entries[0].0 == key then Some(entries[0].1)
    else Lookup(entries[1..], key)
  }

  function Leaf(tag: string, attrs: Attrs): Element
  {
    Element(tag, attrs, "", [])
  }

  /** A `Function` element with its four fixed children. */
  function FunctionElement(name: string, description: string, returnsAttrs: Attrs): Element
  {
    Element("Function", [("name", name), ("method", "N/A"), ("path", "N/A")], "",
      [Element("Description", [], description, []),
       Leaf("Returns", returnsAttrs),
       Leaf("Calls", []),
       Leaf("CalledBy", [])])
  }

  /** A `Type` element of kind "object" with the given `Property` children. */
  function TypeElement(name: string, properties: seq<Element>): Element
  {
    Element("Type", [("name", name), ("kind", "object")], "", properties)
  }

  function PropertyElement(name: string, typ: string): Element
  {
    Leaf("Property", [("name", name), ("type", typ), ("required", "true")])
  }

  function ComponentElement(name: string, description: string, members: seq<Element>): Element
  {
    Element("Component", [("name", name), ("description", description)], "", members)
  }

  function ApplicationElement(name: string, domain: string, components: seq<Element>): Element
  {
    Element("Application", [("name", name), ("domain", domain)], "", components)
  }

  /**
   * What a `Function` element looks like in every extractor's output:
   * method and path "N/A", then Description, Returns, Calls, CalledBy in this
   * order, the call containers empty.
   */
  predicate WellFormedFunction(e: Element)
  {
    && e.tag == "Function"
    && Attr(e, "name").Some?
    && Attr(e, "method") == Some("N/A")
    && Attr(e, "path") == Some("N/A")
    && |e.children| == 4
    && e.children[0].tag == "Description"
    && e.children[1].tag == "Returns"
    && e.children[2] == Leaf("Calls", [])
    && e.children[3] == Leaf("CalledBy", [])
  }

  lemma FunctionElementWellFormed(name: string, description: string, returnsAttrs: Attrs)
    ensures WellFormedFunction(FunctionElement(name, description, returnsAttrs))
    ensures Attr(FunctionElement(name, description, returnsAttrs), "name") == Some(name)
    ensures FunctionElement(name, description, returnsAttrs).children[0].text == description
    ensures FunctionElement(name, description, returnsAttrs).children[1].attrs == returnsAttrs
  {
    var attrs := FunctionElement(name, description, returnsAttrs).attrs;
    assert Lookup(attrs[1..], "method") == Some("N/A");
    assert Lookup(attrs[2..], "path") == Some("N/A");
    assert Lookup(attrs[1..], "path") == Lookup(attrs[1..][1..], "path");
  }

  /** The elements of `es` whose tag is `tag`, in order (`findall(tag)` on their parent). */
  function Tagged(es: seq<Element>, tag: string): (r: seq<Element>)
    ensures |r| <= |es|
    ensures forall i :: 0 <= i < |r| ==> r[i].tag == tag
  {
    if |es| == 0 then []
    else (if es[0].tag == tag then [es[0]] else []) + Tagged(es[1..], tag)
  }

  /** `findall` keeps exactly the children with that tag. */
  lemma {:induction false} TaggedMembership(es: seq<Element>, tag: string, x: Element)
    ensures x in Tagged(es, tag) <==> x in es && x.tag == tag
  {
    if |es| > 0 {
      TaggedMembership(es[1..], tag, x);
      assert es == [es[0]] + es[1..];
    }
  }

  lemma {:induction false} TaggedAppend(a: seq<Element>, b: seq<Element>, tag: string)
    ensures Tagged(a + b, tag) == Tagged(a, tag) + Tagged(b, tag)
  {
    if |a| > 0 {
      assert (a + b)[1..] == a[1..] + b;
      TaggedAppend(a[1..], b, tag);
    } else {
      assert a + b == b;
    }
  }

  /** The `name` attributes of a sequence of elements, in order ("" when missing). */
  function Names(es: seq<Element>): (r: seq<string>)
    ensures |r| == |es|
  {
    if |es| == 0 then [] else [NameOf(es[0])] + Names(es[1..])
  }

  function NameOf(e: Element): string
  {
    match Attr(e, "name")
    case Some(n) => n
    case None => ""
  }

  lemma {:induction false} NamesAppend(a: seq<Element>, b: seq<Element>)
    ensures Names(a + b) == Names(a) + Names(b)
  {
    if |a| > 0 {
      assert (a + b)[1..] == a[1..] + b;
      NamesAppend(a[1..], b);
    } else {
      assert a + b == b;
    }
  }

  /** What `f` gives for each item, in order. */
  function MapItems<A, T>(xs: seq<A>, f: A -> seq<T>): (r: seq<seq<T>>)
    ensures |r| == |xs|
  {
    if |xs| == 0 then [] else MapItems(xs[..|xs| - 1], f) + [f(xs[|xs| - 1])]
  }

  /** Concatenation of a sequence of sequences. */
  function Flatten<T>(xss: seq<seq<T>>): seq<T>
  {
    if |xss| == 0 then [] else xss[0] + Flatten(xss[1..])
  }

  lemma {:induction false} FlattenAppend<T>(a: seq<seq<T>>, b: seq<seq<T>>)
    ensures Flatten(a + b) == Flatten(a) + Flatten(b)
  {
    if |a| > 0 {
      assert (a + b)[1..] == a[1..] + b;
      FlattenAppend(a[1..], b);
    } else {
      assert a + b == b;
    }
  }
}
