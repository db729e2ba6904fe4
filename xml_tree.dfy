/** Parsed XML documents as element trees, and the CSS selectors the viewer runs on them. */
module XmlTree {
  import opened Wrappers
  import opened JsValues

  /** An element: its node name, its `value` attribute (absent or a string) and its child
      elements in document order. Text nodes and other attributes play no part. */
  datatype Elem = Elem(name: string, value: Option<string>, children: seq<Elem>)

  /** `getAttribute('value')`: the attribute's string, or null when it is absent. */
  function ValueAttr(e: Elem): (r: JValue)
    ensures r == JNull <==> e.value.None?
    ensures e.value.Some? ==> r == JStr(e.value.value)
  {
    if e.value.Some? then JStr(e.value.value) else JNull
  }

  /** `found ? found.getAttribute('value') : undefined` for an optional element. */
  function ValueOf(found: Option<Elem>): (r: JsVal)
    ensures r.None? <==> found.None?
    ensures found.Some? ==> r == Some(ValueAttr(found.value))
  {
    if found.Some? then Some(ValueAttr(found.value)) else None
  }

  /** The proper descendants of `e` in document (pre-)order. */
  function Descendants(e: Elem): seq<Elem>
    decreases e, 1
  {
    Forest(e.children)
  }

  /** The trees of `cs` with all their descendants, in document order. */
  function Forest(cs: seq<Elem>): (r: seq<Elem>)
    ensures forall c :: c in cs ==> c in r
    decreases cs, 0
  {
    if cs == [] then []
    else [cs[0]] + Descendants(cs[0]) + Forest(cs[1..])
  }

  /** The elements of `xs` called `n`, in order. */
  function Named(xs: seq<Elem>, n: string): (r: seq<Elem>)
    ensures forall d :: d in r <==> d in xs && d.name == n
    ensures |r| <= |xs|
  {
    if xs == [] then []
    else if xs[0].name == n then [xs[0]] + Named(xs[1..], n)
    else Named(xs[1..], n)
  }

  /** `xs[i]` is called `n` and nothing before it is. */
  predicate FirstNamedAt(xs: seq<Elem>, n: string, i: int) {
    0 <= i < |xs| && xs[i].name == n && forall j :: 0 <= j < i ==> xs[j].name != n
  }

  /** The first element of `xs` called `n`. */
  function FirstNamed(xs: seq<Elem>, n: string): (r: Option<Elem>)
    ensures r.None? <==> forall i :: 0 <= i < |xs| ==> xs[i].name != n
    ensures r.Some? ==> exists i :: FirstNamedAt(xs, n, i) && r.value == xs[i]
  {
    if xs == [] then None
    else if xs[0].name == n then Some(xs[0])
    else
      var r := FirstNamed(xs[1..], n);
      assert forall i :: 1 <= i < |xs| ==> xs[i] == xs[1..][i - 1];
      if r.Some? then
        var i :| FirstNamedAt(xs[1..], n, i) && r.value == xs[1..][i];
        assert FirstNamedAt(xs, n, i + 1);
        r
      else r
  }

  /** `e.querySelector(':scope > n')`: the first child element called `n`. */
  function Child(e: Elem, n: string): Option<Elem> {
    FirstNamed(e.children, n)
  }

  /** `e.querySelectorAll(n)`: every descendant called `n`, in document order. */
  function SelectAll(e: Elem, n: string): seq<Elem> {
    Named(Descendants(e), n)
  }

  /** `e.querySelector(n)`: the first descendant called `n`. */
  function Select(e: Elem, n: string): Option<Elem> {
    FirstNamed(Descendants(e), n)
  }

  /** `e.querySelector(':scope > c n')`: the first element called `n` below a child of `e`
      called `c`, in document order. */
  function SelectUnderChild(e: Elem, c: string, n: string): Option<Elem> {
    FirstNamed(BelowAll(Named(e.children, c)), n)
  }

  /** The proper descendants of every element of `cs`, in document order. */
  function BelowAll(cs: seq<Elem>): seq<Elem> {
    if cs == [] then [] else Descendants(cs[0]) + BelowAll(cs[1..])
  }

  /** The elements below `cs` that have an ancestor called `a` (within `cs` and below), in
      document order: the elements matching `a *` among these trees. */
  function Inside(cs: seq<Elem>, a: string): seq<Elem>
    decreases cs
  {
    if cs == [] then []
    else (if cs[0].name == a then Descendants(cs[0]) else Inside(cs[0].children, a)) + Inside(cs[1..], a)
  }

  /** `e.querySelector(':scope a *')`: the first element having an ancestor called `a` that is
      itself a descendant of `e`. */
  function SelectInside(e: Elem, a: string): Option<Elem> {
    var xs := Inside(e.children, a);
    if xs == [] then None else Some(xs[0])
  }

  /** `doc.querySelector(n)` on a whole document: the first element called `n`, the root
      included. */
  function SelectInDocument(root: Elem, n: string): Option<Elem> {
    FirstNamed([root] + Descendants(root), n)
  }

  /** `doc.querySelector('a n')` on a whole document: the first element called `n` that has an
      ancestor called `a`. */
  function SelectInDocumentUnder(root: Elem, a: string, n: string): Option<Elem> {
    FirstNamed(Inside([root], a), n)
  }

  // ---------------------------------------------------------------------------------------
  // Properties of the selectors
  // ---------------------------------------------------------------------------------------

  /** The first match of a selector is the head of the list of all its matches. */
  lemma {:induction false} FirstOfNamed(xs: seq<Elem>, n: string)
    ensures FirstNamed(xs, n) == if Named(xs, n) == [] then None else Some(Named(xs, n)[0])
  {
    if xs != [] && xs[0].name != n {
      FirstOfNamed(xs[1..], n);
    }
  }

  /** `querySelector(n)` is the first element of `querySelectorAll(n)`. */
  lemma SelectIsFirstOfAll(e: Elem, n: string)
    ensures Select(e, n) == if SelectAll(e, n) == [] then None else Some(SelectAll(e, n)[0])
  {
    FirstOfNamed(Descendants(e), n);
  }

  /** A child called `n` is also a descendant called `n`, so `querySelector(n)` finds something
      whenever `:scope > n` does. */
  lemma ChildIsSelected(e: Elem, n: string)
    requires Child(e, n).Some?
    ensures Select(e, n).Some?
  {
    var c := Child(e, n).value;
    assert c in e.children;
    assert c in Descendants(e);
  }
}
