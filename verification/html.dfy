/**
 * An already-parsed HTML document, and the few BeautifulSoup queries the
 * crawler uses on it: `find_all` (document order, with or without
 * recursion), `find`, `get_text(strip=True)` and `decompose` of every
 * `<nav>`.  A position in the tree is the path of child indices from the
 * node a query starts at; a tag's `parents` are the proper prefixes of its
 * path.
 */
module Html {
  import opened Util

  type Path = seq<nat>

  /** An element keeps the one attribute the crawler reads, `href`. */
  datatype Node =
    | Element(name: string, href: Option<string>, children: seq<Node>)
    | Text(text: string)

  /** A node found at a path below some starting node. */
  datatype Pos = Pos(path: Path, node: Node)

  predicate IsElementNamed(n: Node, names: set<string>)
  {
    n.Element? && n.name in names
  }

  /** The node at `p` below `n`, if `p` leads anywhere. */
  function Subtree(n: Node, p: Path): Option<Node>
    decreases |p|
  {
    if p == [] then Some(n)
    else if n.Element? && p[0] < |n.children| then Subtree(n.children[p[0]], p[1..])
    else None
  }

  /** The node at `p` below `n` exists and is an element named in `names`. */
  predicate NamedAt(n: Node, p: Path, names: set<string>)
  {
    Subtree(n, p).Some? && IsElementNamed(Subtree(n, p).value, names)
  }

  // ---------------------------------------------------------------------
  // Document order
  // ---------------------------------------------------------------------

  function Under(k: nat, s: seq<Pos>): seq<Pos>
  {
    seq(|s|, i requires 0 <= i < |s| => Pos([k] + s[i].path, s[i].node))
  }

  /** Every proper descendant of `n`, in document (pre-)order, as BeautifulSoup's `descendants`. */
  function Descendants(n: Node): seq<Pos>
    decreases n, 1
  {
    if n.Text? then [] else ChildDescendants(n.children, 0)
  }

  /** The descendants contributed by the siblings `cs`, the first of which has index `k`. */
  function ChildDescendants(cs: seq<Node>, k: nat): seq<Pos>
    decreases cs, 0
  {
    if cs == [] then []
    else [Pos([k], cs[0])] + Under(k, Descendants(cs[0])) + ChildDescendants(cs[1..], k + 1)
  }

  /** Every ancestor of a listed node below the start is listed before it. */
  ghost predicate PrefixOrdered(s: seq<Pos>)
  {
    forall j, m :: 0 <= j < |s| && 1 <= m < |s[j].path| ==> AncestorListedBefore(s, j, m)
  }

  /** The ancestor of `s[j]` at depth `m` is listed before index `j`. */
  ghost predicate AncestorListedBefore(s: seq<Pos>, j: nat, m: nat)
    requires j < |s| && m <= |s[j].path|
  {
    exists i :: 0 <= i < j && s[i].path == s[j].path[..m]
  }

  lemma PrefixOrderedConcat(a: seq<Pos>, b: seq<Pos>)
    requires PrefixOrdered(a) && PrefixOrdered(b)
    ensures PrefixOrdered(a + b)
  {
    var s := a + b;
    forall j, m | 0 <= j < |s| && 1 <= m < |s[j].path|
      ensures AncestorListedBefore(s, j, m)
    {
      if j < |a| {
        assert AncestorListedBefore(a, j, m);
        var i :| 0 <= i < j && a[i].path == a[j].path[..m];
        assert s[i] == a[i];
      } else {
        var jb := j - |a|;
        assert s[j] == b[jb];
        assert AncestorListedBefore(b, jb, m);
        var i :| 0 <= i < jb && b[i].path == b[jb].path[..m];
        assert s[|a| + i] == b[i];
      }
    }
  }

  lemma PrefixOrderedUnder(k: nat, c: Node, s: seq<Pos>)
    requires PrefixOrdered(s)
    ensures PrefixOrdered([Pos([k], c)] + Under(k, s))
  {
    var u := [Pos([k], c)] + Under(k, s);
    forall j, m | 0 <= j < |u| && 1 <= m < |u[j].path|
      ensures AncestorListedBefore(u, j, m)
    {
      assert j >= 1;
      var p := s[j - 1].path;
      assert u[j].path == [k] + p;
      if m == 1 {
        assert u[0].path == u[j].path[..m];
      } else {
        assert AncestorListedBefore(s, j - 1, m - 1);
        var i :| 0 <= i < j - 1 && s[i].path == p[..m - 1];
        assert u[i + 1].path == [k] + s[i].path;
        assert u[i + 1].path == u[j].path[..m];
      }
    }
  }

  lemma {:induction false} DescendantsPrefixOrdered(n: Node)
    ensures PrefixOrdered(Descendants(n))
    decreases n, 1, 0
  {
    if n.Element? {
      ChildDescendantsPrefixOrdered(n, 0);
      assert n.children[0..] == n.children;
    }
  }

  lemma {:induction false} ChildDescendantsPrefixOrdered(n: Node, k: nat)
    requires n.Element? && k <= |n.children|
    ensures PrefixOrdered(ChildDescendants(n.children[k..], k))
    decreases n, 0, |n.children| - k
  {
    var cs := n.children[k..];
    if cs != [] {
      assert cs[0] == n.children[k] && cs[1..] == n.children[k + 1..];
      DescendantsPrefixOrdered(n.children[k]);
      PrefixOrderedUnder(k, cs[0], Descendants(cs[0]));
      ChildDescendantsPrefixOrdered(n, k + 1);
      PrefixOrderedConcat([Pos([k], cs[0])] + Under(k, Descendants(cs[0])), ChildDescendants(cs[1..], k + 1));
    }
  }

  /** Each listed descendant really sits at its path, and none is the start node itself. */
  lemma {:induction false} DescendantsAreSubtrees(n: Node)
    ensures forall e :: e in Descendants(n) ==> e.path != [] && Subtree(n, e.path) == Some(e.node)
    decreases n, 1, 0
  {
    if n.Element? {
      ChildDescendantsAreSubtrees(n, 0);
      assert n.children[0..] == n.children;
    }
  }

  lemma {:induction false} ChildDescendantsAreSubtrees(n: Node, k: nat)
    requires n.Element? && k <= |n.children|
    ensures forall e :: e in ChildDescendants(n.children[k..], k) ==>
      e.path != [] && k <= e.path[0] && Subtree(n, e.path) == Some(e.node)
    decreases n, 0, |n.children| - k
  {
    var cs := n.children[k..];
    if cs != [] {
      assert cs[0] == n.children[k] && cs[1..] == n.children[k + 1..];
      var c := n.children[k];
      DescendantsAreSubtrees(c);
      ChildDescendantsAreSubtrees(n, k + 1);
      var under := Under(k, Descendants(c));
      forall e | e in under
        ensures e.path != [] && k <= e.path[0] && Subtree(n, e.path) == Some(e.node)
      {
        var i :| 0 <= i < |under| && under[i] == e;
        var d := Descendants(c)[i];
        assert e.path == [k] + d.path && e.node == d.node;
        assert e.path[1..] == d.path;
      }
    }
  }

  /** Conversely, every position below `n` is listed among its descendants. */
  lemma {:induction false} SubtreeInDescendants(n: Node, p: Path)
    requires p != [] && Subtree(n, p).Some?
    ensures Pos(p, Subtree(n, p).value) in Descendants(n)
    decreases n, 1, 0
  {
    assert n.children[0..] == n.children;
    InChildDescendants(n, 0, p);
  }

  lemma {:induction false} InChildDescendants(n: Node, k: nat, p: Path)
    requires p != [] && Subtree(n, p).Some? && k <= p[0]
    ensures n.Element? && k <= |n.children|
    ensures Pos(p, Subtree(n, p).value) in ChildDescendants(n.children[k..], k)
    decreases n, 0, |n.children| - k
  {
    var cs := n.children[k..];
    assert cs[0] == n.children[k] && cs[1..] == n.children[k + 1..];
    var x := Subtree(n, p).value;
    if p[0] == k {
      var c := n.children[k];
      if |p| == 1 {
        assert ChildDescendants(cs, k)[0] == Pos(p, x);
      } else {
        var q := p[1..];
        assert Subtree(c, q) == Some(x);
        SubtreeInDescendants(c, q);
        var ds := Descendants(c);
        var i :| 0 <= i < |ds| && ds[i] == Pos(q, x);
        assert [k] + q == p;
        assert Under(k, ds)[i] == Pos(p, x);
        assert ChildDescendants(cs, k)[1 + i] == Pos(p, x);
      }
    } else {
      InChildDescendants(n, k + 1, p);
    }
  }

  // ---------------------------------------------------------------------
  // find_all / find
  // ---------------------------------------------------------------------

  /** The nodes of `es`, in order, that are elements named in `names`. */
  function NodesNamed(es: seq<Pos>, names: set<string>): (r: seq<Node>)
    ensures forall x :: x in r <==> IsElementNamed(x, names) && exists e :: e in es && e.node == x
  {
    if es == [] then []
    else (if IsElementNamed(es[0].node, names) then [es[0].node] else []) + NodesNamed(es[1..], names)
  }

  /** `find_all` keeps document order: the matches of two stretches are those of the first, then those of the second. */
  lemma {:induction false} NodesNamedAppend(a: seq<Pos>, b: seq<Pos>, names: set<string>)
    ensures NodesNamed(a + b, names) == NodesNamed(a, names) + NodesNamed(b, names)
  {
    if a == [] {
      assert a + b == b;
    } else {
      assert (a + b)[0] == a[0] && (a + b)[1..] == a[1..] + b;
      NodesNamedAppend(a[1..], b, names);
    }
  }

  /** A single position contributes its node exactly when it is an element with a wanted name. */
  lemma NodesNamedOne(e: Pos, names: set<string>)
    ensures NodesNamed([e], names) == if IsElementNamed(e.node, names) then [e.node] else []
  {
    assert [e][1..] == [];
  }

  /** `n.find_all(names)`: the descendant elements named in `names`, in document order. */
  function FindAll(n: Node, names: set<string>): seq<Node>
  {
    NodesNamed(Descendants(n), names)
  }

  /** `x` is a node strictly below `n`. */
  ghost predicate Below(n: Node, x: Node)
  {
    exists p :: p != [] && Subtree(n, p) == Some(x)
  }

  /** `find_all` yields exactly the elements with a wanted name strictly below `n`. */
  lemma FindAllMembers(n: Node, names: set<string>)
    ensures forall x :: x in FindAll(n, names) <==> IsElementNamed(x, names) && Below(n, x)
  {
    DescendantsAreSubtrees(n);
    forall x | x in FindAll(n, names)
      ensures IsElementNamed(x, names) && Below(n, x)
    {
      var e :| e in Descendants(n) && e.node == x;
      assert e.path != [] && Subtree(n, e.path) == Some(x);
    }
    forall x | IsElementNamed(x, names) && Below(n, x)
      ensures x in FindAll(n, names)
    {
      var p :| p != [] && Subtree(n, p) == Some(x);
      SubtreeInDescendants(n, p);
      assert Pos(p, x) in Descendants(n) && Pos(p, x).node == x;
    }
  }

  /** `n.find(name)`, which `soup.body` abbreviates. */
  function Find(n: Node, name: string): Option<Node>
  {
    var found := FindAll(n, {name});
    if found == [] then None else Some(found[0])
  }

  /** `find` gives the first match of `find_all`, an element of that name, and nothing only when no element below has it. */
  lemma FindFirst(n: Node, name: string)
    ensures Find(n, name).Some? ==>
      IsElementNamed(Find(n, name).value, {name}) && Below(n, Find(n, name).value)
      && Find(n, name).value == FindAll(n, {name})[0]
    ensures Find(n, name).None? <==> forall x :: Below(n, x) ==> !IsElementNamed(x, {name})
  {
    FindAllMembers(n, {name});
    var found := FindAll(n, {name});
    if found != [] {
      assert found[0] in found;
    }
  }

  /** The `href` values of the `<a>` elements of `es`, in order. */
  function AnchorHrefs(es: seq<Pos>): (r: seq<string>)
    ensures forall h :: h in r <==> exists e :: e in es && e.node.Element? && e.node.name == "a" && e.node.href == Some(h)
  {
    if es == [] then []
    else
      var first := es[0].node;
      (if first.Element? && first.name == "a" && first.href.Some? then [first.href.value] else [])
        + AnchorHrefs(es[1..])
  }

  /** `[a['href'] for a in n.find_all('a', href=True)]`. */
  function Hrefs(n: Node): seq<string>
  {
    AnchorHrefs(Descendants(n))
  }

  /** Every anchor anywhere below `n` contributes its `href`. */
  lemma AnchorHrefListed(n: Node, p: Path, h: string)
    requires p != [] && Subtree(n, p).Some?
    requires var a := Subtree(n, p).value; a.Element? && a.name == "a" && a.href == Some(h)
    ensures h in Hrefs(n)
  {
    SubtreeInDescendants(n, p);
  }

  /** The direct children of `cs` that are elements named `name` (`find_all(name, recursive=False)`). */
  function ChildrenNamed(cs: seq<Node>, name: string): (r: seq<Node>)
    ensures |r| <= |cs|
    ensures forall x :: x in r <==> x in cs && IsElementNamed(x, {name})
  {
    if cs == [] then []
    else (if IsElementNamed(cs[0], {name}) then [cs[0]] else []) + ChildrenNamed(cs[1..], name)
  }

  /** The kept children stay in source order: those of the first stretch, then those of the second. */
  lemma {:induction false} ChildrenNamedAppend(a: seq<Node>, b: seq<Node>, name: string)
    ensures ChildrenNamed(a + b, name) == ChildrenNamed(a, name) + ChildrenNamed(b, name)
  {
    if a == [] {
      assert a + b == b;
    } else {
      assert (a + b)[0] == a[0] && (a + b)[1..] == a[1..] + b;
      ChildrenNamedAppend(a[1..], b, name);
    }
  }

  /** A single child is kept exactly when it is an element with that name. */
  lemma ChildrenNamedOne(c: Node, name: string)
    ensures ChildrenNamed([c], name) == if IsElementNamed(c, {name}) then [c] else []
  {
    assert [c][1..] == [];
  }

  // ---------------------------------------------------------------------
  // Text
  // ---------------------------------------------------------------------

  /** The characters Python's `str.isspace` accepts, which `str.strip()` removes. */
  predicate IsSpace(c: char)
  {
    || c == ' ' || ('\t' <= c <= '\r') || ('\U{1c}' <= c <= '\U{1f}')
    || c == '\U{85}' || c == '\U{a0}' || c == '\U{1680}' || ('\U{2000}' <= c <= '\U{200a}')
    || c == '\U{2028}' || c == '\U{2029}' || c == '\U{202f}' || c == '\U{205f}' || c == '\U{3000}'
  }

  /** The number of leading whitespace characters. */
  function LeadingSpaces(s: string): (i: nat)
    ensures i <= |s|
    ensures forall k :: 0 <= k < i ==> IsSpace(s[k])
    ensures i < |s| ==> !IsSpace(s[i])
  {
    if s != [] && IsSpace(s[0]) then 1 + LeadingSpaces(s[1..]) else 0
  }

  /** The index where the trailing whitespace starts. */
  function TrailingStart(s: string): (j: nat)
    ensures j <= |s|
    ensures forall k :: j <= k < |s| ==> IsSpace(s[k])
    ensures j > 0 ==> !IsSpace(s[j - 1])
  {
    if s != [] && IsSpace(s[|s| - 1]) then TrailingStart(s[..|s| - 1]) else |s|
  }

  /** Python's `s.strip()`. */
  function Strip(s: string): (r: string)
    ensures |r| <= |s|
  {
    var i := LeadingSpaces(s);
    s[i..][..TrailingStart(s[i..])]
  }

  /** `strip()` removes leading and trailing whitespace and nothing else. */
  lemma StripTrims(s: string)
    ensures var r := Strip(s);
            && (exists i, j ::
                  && 0 <= i <= j <= |s| && r == s[i..j]
                  && (forall k :: 0 <= k < i ==> IsSpace(s[k]))
                  && (forall k :: j <= k < |s| ==> IsSpace(s[k])))
            && (r != [] ==> !IsSpace(r[0]) && !IsSpace(r[|r| - 1]))
            && (r == [] <==> forall k :: 0 <= k < |s| ==> IsSpace(s[k]))
  {
    var i := LeadingSpaces(s);
    var t := s[i..];
    var j := TrailingStart(t);
    assert Strip(s) == t[..j];
    assert t[..j] == s[i..i + j];
    assert forall k :: i + j <= k < |s| ==> s[k] == t[k - i];
  }

  /** `n.get_text(strip=True)`: every text node below `n`, stripped, concatenated in document order. */
  function GetText(n: Node): string
    decreases n, 1
  {
    match n
    case Text(s) => Strip(s)
    case Element(_, _, cs) => ChildrenText(cs)
  }

  function ChildrenText(cs: seq<Node>): string
    decreases cs, 0
  {
    if cs == [] then "" else GetText(cs[0]) + ChildrenText(cs[1..])
  }

  /** `get_text(strip=True)` neither starts nor ends with whitespace. */
  lemma {:induction false} GetTextTrimmed(n: Node)
    ensures var r := GetText(n); r != [] ==> !IsSpace(r[0]) && !IsSpace(r[|r| - 1])
    decreases n, 1
  {
    match n
    case Text(s) => StripTrims(s);
    case Element(_, _, cs) => ChildrenTextTrimmed(cs);
  }

  lemma {:induction false} ChildrenTextTrimmed(cs: seq<Node>)
    ensures var r := ChildrenText(cs); r != [] ==> !IsSpace(r[0]) && !IsSpace(r[|r| - 1])
    decreases cs, 0
  {
    if cs != [] {
      GetTextTrimmed(cs[0]);
      ChildrenTextTrimmed(cs[1..]);
      var a, b := GetText(cs[0]), ChildrenText(cs[1..]);
      assert ChildrenText(cs) == a + b;
      if a != [] {
        assert (a + b)[0] == a[0];
      }
      if b != [] {
        assert (a + b)[|a + b| - 1] == b[|b| - 1];
      }
    }
  }

  // ---------------------------------------------------------------------
  // Removing navigation landmarks
  // ---------------------------------------------------------------------

  predicate IsNav(n: Node)
  {
    n.Element? && n.name == "nav"
  }

  /** The tree after `nav.decompose()` for every `nav` in `soup.find_all('nav')`. */
  function StripNav(n: Node): (r: Node)
    ensures r.Element? == n.Element?
    ensures n.Element? ==> r.name == n.name && r.href == n.href
    decreases n, 1
  {
    match n
    case Text(_) => n
    case Element(name, href, cs) => Element(name, href, StripNavAll(cs))
  }

  function StripNavAll(cs: seq<Node>): (r: seq<Node>)
    ensures forall c :: c in r ==> exists d :: d in cs && !IsNav(d) && c == StripNav(d)
    decreases cs, 0
  {
    if cs == [] then []
    else (if IsNav(cs[0]) then [] else [StripNav(cs[0])]) + StripNavAll(cs[1..])
  }

  /** Only `nav` children are removed; the others stay, cleaned of navigation, in their order. */
  lemma {:induction false} StripNavAllAppend(a: seq<Node>, b: seq<Node>)
    ensures StripNavAll(a + b) == StripNavAll(a) + StripNavAll(b)
  {
    if a == [] {
      assert a + b == b;
    } else {
      assert (a + b)[0] == a[0] && (a + b)[1..] == a[1..] + b;
      StripNavAllAppend(a[1..], b);
    }
  }

  /** A `nav` child is removed; any other child stays, with its own navigation removed. */
  lemma StripNavAllOne(c: Node)
    ensures StripNavAll([c]) == if IsNav(c) then [] else [StripNav(c)]
  {
    assert [c][1..] == [];
  }

  /** No `nav` element anywhere below `n`. */
  ghost predicate NavFree(n: Node)
  {
    n.Element? ==> forall c :: c in n.children ==> !IsNav(c) && NavFree(c)
  }

  lemma {:induction false} StripNavNavFree(n: Node)
    ensures NavFree(StripNav(n))
  {
    if n.Element? {
      forall c | c in StripNav(n).children
        ensures !IsNav(c) && NavFree(c)
      {
        var d :| d in n.children && !IsNav(d) && c == StripNav(d);
        StripNavNavFree(d);
      }
    }
  }

  /** Removing navigation from a tree that has none changes nothing. */
  lemma {:induction false} StripNavIdentity(n: Node)
    requires NavFree(n)
    ensures StripNav(n) == n
    decreases n, 1
  {
    if n.Element? {
      StripNavAllIdentity(n.children);
    }
  }

  lemma {:induction false} StripNavAllIdentity(cs: seq<Node>)
    requires forall c :: c in cs ==> !IsNav(c) && NavFree(c)
    ensures StripNavAll(cs) == cs
    decreases cs, 0
  {
    if cs != [] {
      StripNavIdentity(cs[0]);
      StripNavAllIdentity(cs[1..]);
    }
  }

  /** Removing navigation twice is the same as once. */
  lemma StripNavIdempotent(n: Node)
    ensures StripNav(StripNav(n)) == StripNav(n)
  {
    StripNavNavFree(n);
    StripNavIdentity(StripNav(n));
  }

  /** Every node below a nav-free tree is neither a `nav` nor holds one. */
  lemma {:induction false} NavFreeDescendants(n: Node)
    requires NavFree(n)
    ensures forall e :: e in Descendants(n) ==> !IsNav(e.node) && NavFree(e.node)
    decreases n, 1, 0
  {
    if n.Element? {
      assert n.children[0..] == n.children;
      NavFreeChildDescendants(n, 0);
    }
  }

  lemma {:induction false} NavFreeChildDescendants(n: Node, k: nat)
    requires n.Element? && k <= |n.children| && NavFree(n)
    ensures forall e :: e in ChildDescendants(n.children[k..], k) ==> !IsNav(e.node) && NavFree(e.node)
    decreases n, 0, |n.children| - k
  {
    var cs := n.children[k..];
    if cs != [] {
      assert cs[0] == n.children[k] && cs[1..] == n.children[k + 1..];
      var c := n.children[k];
      NavFreeDescendants(c);
      NavFreeChildDescendants(n, k + 1);
      var under := Under(k, Descendants(c));
      forall e | e in under
        ensures !IsNav(e.node) && NavFree(e.node)
      {
        var i :| 0 <= i < |under| && under[i] == e;
        assert e.node == Descendants(c)[i].node;
      }
    }
  }
}
