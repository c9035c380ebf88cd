/**
 * The tag selection both crawlers share: walk the body's descendants in
 * document order, look only at the wanted tag names, and skip a tag when one
 * of its ancestors is already in `processed_tags`.  `Selected` is that loop's
 * result as a filter; `ProcessedCheck` shows that the loop's ancestor test
 * against the tags processed so far decides exactly the structural question
 * "has this tag a wanted ancestor inside the body?".
 */
module Extraction {
  import opened Util
  import opened Html

  /** No proper ancestor of `p` strictly below `body` is a wanted tag. */
  predicate IsTop(body: Node, p: Path, wanted: set<string>)
  {
    forall m :: 1 <= m < |p| ==> !NamedAt(body, p[..m], wanted)
  }

  /** `any(p in tag.parents for p in processed_tags)`, with tags identified by their position. */
  predicate UnderProcessed(processed: seq<Pos>, p: Path)
  {
    exists i :: 0 <= i < |processed| && IsProperPrefix(processed[i].path, p)
  }

  /** The entries of `es`, in order, that are wanted tags with no wanted ancestor below `body`. */
  function Selected(body: Node, es: seq<Pos>, wanted: set<string>): (r: seq<Pos>)
    ensures forall e :: e in r <==> e in es && IsElementNamed(e.node, wanted) && IsTop(body, e.path, wanted)
  {
    if es == [] then []
    else
      var last := es[|es| - 1];
      Selected(body, es[..|es| - 1], wanted)
        + (if IsElementNamed(last.node, wanted) && IsTop(body, last.path, wanted) then [last] else [])
  }

  /** The tags the extraction loop processes on `body`, in document order. */
  function TopLevelTags(body: Node, wanted: set<string>): seq<Pos>
  {
    Selected(body, Descendants(body), wanted)
  }

  /** Among the wanted ancestors of `t`, there is a shallowest one. */
  lemma {:induction false} ShallowestWantedAncestor(body: Node, t: Path, m: nat, wanted: set<string>)
    requires 1 <= m < |t| && NamedAt(body, t[..m], wanted)
    ensures exists m0 :: 1 <= m0 <= m && NamedAt(body, t[..m0], wanted) && IsTop(body, t[..m0], wanted)
    decreases m
  {
    if exists m' :: 1 <= m' < m && NamedAt(body, t[..m'], wanted) {
      var m' :| 1 <= m' < m && NamedAt(body, t[..m'], wanted);
      ShallowestWantedAncestor(body, t, m', wanted);
    } else {
      forall m' | 1 <= m' < m ensures t[..m][..m'] == t[..m'] { }
    }
  }

  /**
   * At step `j` of the loop, the ancestor test against the tags processed so
   * far holds exactly when the tag has a wanted ancestor below the body.
   */
  lemma ProcessedCheck(body: Node, j: nat, wanted: set<string>)
    requires j < |Descendants(body)|
    ensures var ds := Descendants(body);
            UnderProcessed(Selected(body, ds[..j], wanted), ds[j].path) <==> !IsTop(body, ds[j].path, wanted)
  {
    var ds := Descendants(body);
    if UnderProcessed(Selected(body, ds[..j], wanted), ds[j].path) {
      ProcessedAncestorIsWanted(body, j, wanted);
    }
    if !IsTop(body, ds[j].path, wanted) {
      WantedAncestorIsProcessed(body, j, wanted);
    }
  }

  /** One step of the loop: a wanted tag is processed exactly when no processed tag contains it. */
  lemma SelectStep(body: Node, j: nat, processed: seq<Pos>, wanted: set<string>)
    requires j < |Descendants(body)|
    requires processed == Selected(body, Descendants(body)[..j], wanted)
    ensures var tag := Descendants(body)[j];
            Selected(body, Descendants(body)[..j + 1], wanted)
              == if IsElementNamed(tag.node, wanted) && !UnderProcessed(processed, tag.path)
                 then processed + [tag] else processed
  {
    var ds := Descendants(body);
    assert ds[..j + 1][..j] == ds[..j];
    if IsElementNamed(ds[j].node, wanted) {
      ProcessedCheck(body, j, wanted);
    }
  }

  /** A processed tag among the parents is a wanted ancestor below the body. */
  lemma ProcessedAncestorIsWanted(body: Node, j: nat, wanted: set<string>)
    requires j < |Descendants(body)|
    requires UnderProcessed(Selected(body, Descendants(body)[..j], wanted), Descendants(body)[j].path)
    ensures !IsTop(body, Descendants(body)[j].path, wanted)
  {
    var ds := Descendants(body);
    var t := ds[j].path;
    var processed := Selected(body, ds[..j], wanted);
    DescendantsAreSubtrees(body);
    var i :| 0 <= i < |processed| && IsProperPrefix(processed[i].path, t);
    var e := processed[i];
    assert e in ds[..j];
    assert e.path != [] && Subtree(body, e.path) == Some(e.node);
    assert t[..|e.path|] == e.path;
    assert NamedAt(body, t[..|e.path|], wanted);
  }

  /** The shallowest wanted ancestor of a tag comes earlier in document order and was processed. */
  lemma WantedAncestorIsProcessed(body: Node, j: nat, wanted: set<string>)
    requires j < |Descendants(body)|
    requires !IsTop(body, Descendants(body)[j].path, wanted)
    ensures UnderProcessed(Selected(body, Descendants(body)[..j], wanted), Descendants(body)[j].path)
  {
    var ds := Descendants(body);
    var processed := Selected(body, ds[..j], wanted);
    var i := TopAncestorListed(body, j, wanted);
    assert ds[..j][i] == ds[i];
    assert ds[i] in processed;
    var k :| 0 <= k < |processed| && processed[k] == ds[i];
    assert IsProperPrefix(processed[k].path, ds[j].path);
  }

  /** A tag with a wanted ancestor below the body has one without a wanted ancestor, listed earlier. */
  lemma TopAncestorListed(body: Node, j: nat, wanted: set<string>) returns (i: nat)
    requires j < |Descendants(body)|
    requires !IsTop(body, Descendants(body)[j].path, wanted)
    ensures i < j
    ensures var ds := Descendants(body);
            IsElementNamed(ds[i].node, wanted) && IsTop(body, ds[i].path, wanted) && IsProperPrefix(ds[i].path, ds[j].path)
  {
    var ds := Descendants(body);
    var t := ds[j].path;
    var m :| 1 <= m < |t| && NamedAt(body, t[..m], wanted);
    ShallowestWantedAncestor(body, t, m, wanted);
    var m0 :| 1 <= m0 <= m && NamedAt(body, t[..m0], wanted) && IsTop(body, t[..m0], wanted);
    DescendantsPrefixOrdered(body);
    assert AncestorListedBefore(ds, j, m0);
    i :| 0 <= i < j && ds[i].path == t[..m0];
    DescendantsAreSubtrees(body);
    assert ds[i] in ds;
    assert Subtree(body, ds[i].path) == Some(ds[i].node);
  }

  /** No processed tag lies inside another processed tag, so nothing is emitted twice. */
  lemma NoNestedTags(body: Node, wanted: set<string>)
    ensures var top := TopLevelTags(body, wanted);
            forall a, b :: a in top && b in top ==> !IsProperPrefix(a.path, b.path)
  {
    var top := TopLevelTags(body, wanted);
    DescendantsAreSubtrees(body);
    forall a, b | a in top && b in top
      ensures !IsProperPrefix(a.path, b.path)
    {
      if IsProperPrefix(a.path, b.path) {
        assert b.path[..|a.path|] == a.path;
        assert NamedAt(body, b.path[..|a.path|], wanted);
      }
    }
  }

  /** Every wanted tag of the body is processed, or lies inside a processed tag. */
  lemma EveryWantedTagCovered(body: Node, wanted: set<string>)
    ensures var top := TopLevelTags(body, wanted);
            forall e :: e in Descendants(body) && IsElementNamed(e.node, wanted) ==>
              e in top || exists a :: a in top && IsProperPrefix(a.path, e.path)
  {
    var ds := Descendants(body);
    var top := TopLevelTags(body, wanted);
    DescendantsAreSubtrees(body);
    DescendantsPrefixOrdered(body);
    forall e | e in ds && IsElementNamed(e.node, wanted) && !IsTop(body, e.path, wanted)
      ensures exists a :: a in top && IsProperPrefix(a.path, e.path)
    {
      var j :| 0 <= j < |ds| && ds[j] == e;
      var i := TopAncestorListed(body, j, wanted);
      assert ds[i] in ds;
      assert ds[i] in top;
    }
  }

  /** Processed tags come from the body, carry wanted names and hold no `nav` once navigation is removed. */
  lemma TopLevelTagsNavFree(body: Node, wanted: set<string>)
    requires NavFree(body)
    ensures forall e :: e in TopLevelTags(body, wanted) ==>
      IsElementNamed(e.node, wanted) && !IsNav(e.node) && NavFree(e.node)
  {
    NavFreeDescendants(body);
  }
}
