/**
 * The parsed page as an immutable arena tree (node index -> parent index)
 * standing in for the BeautifulSoup tree, with the block resolver
 * `nearest_text_block` (ebay_purchases_list_only.py:54-59) and the
 * item-link locator of line 84.
 */
module Document {
  import opened Wrappers
  import opened Text
  import opened Indices

  /** One element of the page: its tag name, its `href` attribute if any,
      its parent's index (None for the root) and the text of its subtree
      as `get_text(" ")` would give it, left abstract. */
  datatype Node = Node(tag: string, href: Option<string>, parent: Option<nat>, text: string)

  /** The elements of one page in document order. */
  datatype Page = Page(nodes: seq<Node>)

  /** Every parent link points at a node of the page. */
  predicate WellFormed(doc: Page) {
    forall i :: 0 <= i < |doc.nodes| && doc.nodes[i].parent.Some? ==>
      doc.nodes[i].parent.value < |doc.nodes|
  }

  /** The node exactly `j` parent links above `n`, if the tree is that deep. */
  function AncestorAt(doc: Page, n: nat, j: nat): (r: Option<nat>)
    requires WellFormed(doc) && n < |doc.nodes|
    ensures r.Some? ==> r.value < |doc.nodes|
    decreases j
  {
    if j == 0 then Some(n)
    else match doc.nodes[n].parent
      case None => None
      case Some(p) => AncestorAt(doc, p, j - 1)
  }

  /** What `k` rounds of `if cur.parent: cur = cur.parent` leave in `cur`. */
  function Climb(doc: Page, n: nat, k: nat): (b: nat)
    requires WellFormed(doc) && n < |doc.nodes|
    ensures b < |doc.nodes|
    decreases k
  {
    if k == 0 then n
    else match doc.nodes[n].parent
      case None => Climb(doc, n, k - 1)
      case Some(p) => Climb(doc, p, k - 1)
  }

  predicate IsRoot(doc: Page, n: nat)
    requires n < |doc.nodes|
  {
    doc.nodes[n].parent.None?
  }

  /** The climb ends at the `k`-th ancestor, or earlier at the root: it
      never fails and never follows more than `k` links. */
  lemma {:induction false} ClimbIsBoundedAncestor(doc: Page, n: nat, k: nat)
    requires WellFormed(doc) && n < |doc.nodes|
    ensures AncestorAt(doc, n, k) == Some(Climb(doc, n, k)) ||
            exists j :: 0 <= j < k && AncestorAt(doc, n, j) == Some(Climb(doc, n, k)) &&
                        IsRoot(doc, Climb(doc, n, k))
    decreases k
  {
    if k > 0 {
      match doc.nodes[n].parent
      case None =>
        ClimbStaysAtRoot(doc, n, k);
        assert AncestorAt(doc, n, 0) == Some(n);
      case Some(p) =>
        ClimbIsBoundedAncestor(doc, p, k - 1);
        assert AncestorAt(doc, n, k) == AncestorAt(doc, p, k - 1);
        assert Climb(doc, n, k) == Climb(doc, p, k - 1);
        if AncestorAt(doc, p, k - 1) != Some(Climb(doc, p, k - 1)) {
          var j :| 0 <= j < k - 1 && AncestorAt(doc, p, j) == Some(Climb(doc, p, k - 1)) &&
                   IsRoot(doc, Climb(doc, p, k - 1));
          assert AncestorAt(doc, n, j + 1) == AncestorAt(doc, p, j);
          assert 0 <= j + 1 < k && AncestorAt(doc, n, j + 1) == Some(Climb(doc, n, k)) &&
                 IsRoot(doc, Climb(doc, n, k));
          assert exists j' :: 0 <= j' < k && AncestorAt(doc, n, j') == Some(Climb(doc, n, k)) &&
                        IsRoot(doc, Climb(doc, n, k));
        }
    }
  }

  /** Climbing from the root stays at the root. */
  lemma {:induction false} ClimbStaysAtRoot(doc: Page, n: nat, k: nat)
    requires WellFormed(doc) && n < |doc.nodes| && IsRoot(doc, n)
    ensures Climb(doc, n, k) == n
    decreases k
  {
    if k > 0 {
      ClimbStaysAtRoot(doc, n, k - 1);
    }
  }

  /** `nearest_text_block(node)`: climb at most three parent links and
      return the cleaned text of the node reached, with that node. */
  method NearestTextBlock(doc: Page, node: nat) returns (text: string, block: nat)
    requires WellFormed(doc) && node < |doc.nodes|
    ensures block == Climb(doc, node, 3)
    ensures AncestorAt(doc, node, 3) == Some(block) ||
            exists j :: 0 <= j < 3 && AncestorAt(doc, node, j) == Some(block) && IsRoot(doc, block)
    ensures text == Clean(doc.nodes[block].text)
  {
    var cur: nat := node;
    for i := 0 to 3
      invariant cur < |doc.nodes|
      invariant Climb(doc, cur, 3 - i) == Climb(doc, node, 3)
    {
      if doc.nodes[cur].parent.Some? {
        cur := doc.nodes[cur].parent.value;
      }
    }
    ClimbIsBoundedAncestor(doc, node, 3);
    text, block := Clean(doc.nodes[cur].text), cur;
  }

  // ---------------------------------------------------------------------
  // Item links (line 84)
  // ---------------------------------------------------------------------

  /** Python's `sub in s` for strings. */
  predicate Contains(s: string, sub: string)
    decreases |s|
  {
    |sub| <= |s| && (s[..|sub|] == sub || Contains(s[1..], sub))
  }

  /** `<a href=...>` whose target contains the item-page marker `/itm/`. */
  predicate IsItemLink(node: Node) {
    node.tag == "a" && node.href.Some? && Contains(node.href.value, "/itm/")
  }

  /** `[a for a in soup.find_all("a", href=True) if "/itm/" in a["href"]]`. */
  function ItemLinks(doc: Page): (links: seq<nat>)
    ensures forall k :: 0 <= k < |links| ==> links[k] < |doc.nodes| && IsItemLink(doc.nodes[links[k]])
    ensures forall k, l :: 0 <= k < l < |links| ==> Ascending(links, k, l)
  {
    IndicesWhere(ItemLinkFlags(doc), |doc.nodes|)
  }

  /** Which nodes are item links. */
  function ItemLinkFlags(doc: Page): (flags: seq<bool>)
    ensures |flags| == |doc.nodes|
  {
    seq(|doc.nodes|, i requires 0 <= i < |doc.nodes| => IsItemLink(doc.nodes[i]))
  }

  /** No item link is missed. */
  lemma ItemLinksComplete(doc: Page, i: nat)
    requires i < |doc.nodes| && IsItemLink(doc.nodes[i])
    ensures i in ItemLinks(doc)
  {
    IndicesWhereComplete(ItemLinkFlags(doc), |doc.nodes|, i);
  }
}
