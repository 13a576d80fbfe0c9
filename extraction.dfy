/**
 * `parse_page_list_only` (ebay_purchases_list_only.py:80-121): walk the
 * item links in document order, skip short and repeated titles, drop
 * links whose block shows only other years, extract the fields from the
 * block and, once, from its parent, and collect one record per link kept.
 *
 * The loop is the method `ParsePage`; it is proved equal to `Parsed`, a
 * declarative description: the records of the links that `Kept` admits,
 * in document order.
 */
module Extraction {
  import opened Wrappers
  import opened Text
  import opened Labels
  import opened Years
  import opened Document
  import opened Indices

  /** One output row (lines 113-119). */
  datatype Record = Record(seller: string, itemTitle: string, orderTotal: string,
                           currency: string, orderNumber: string)

  /** Every index of `links` names a node of the page. */
  predicate LinksIn(doc: Page, links: seq<nat>) {
    WellFormed(doc) && forall k :: 0 <= k < |links| ==> links[k] < |doc.nodes|
  }

  /** `clean(a.get_text(" "))` (line 88). */
  function Title(doc: Page, n: nat): string
    requires n < |doc.nodes|
  {
    Clean(doc.nodes[n].text)
  }

  /** Line 89: an empty title or one shorter than four characters is skipped. */
  predicate IsItemTitle(title: string) {
    !(title == "" || |title| < 4)
  }

  /** The block `nearest_text_block` resolves for a link (line 95). */
  function BlockOf(doc: Page, n: nat): nat
    requires WellFormed(doc) && n < |doc.nodes|
  {
    Climb(doc, n, 3)
  }

  function BlockText(doc: Page, n: nat): string
    requires WellFormed(doc) && n < |doc.nodes|
  {
    Clean(doc.nodes[BlockOf(doc, n)].text)
  }

  // ---------------------------------------------------------------------
  // Escalation to the parent block (lines 101-111)
  // ---------------------------------------------------------------------

  /** Line 103: a total, an order number or a seller is still missing. */
  predicate NeedsWiderBlock(m: Meta) {
    !(m.total != "" && m.orderNumber != "" && m.seller != "")
  }

  /** Lines 108-111: `x = x or x2` for each field. */
  function Merge(narrow: Meta, wide: Meta): Meta {
    Meta(if narrow.total != "" then narrow.total else wide.total,
         if narrow.currency != "" then narrow.currency else wide.currency,
         if narrow.orderNumber != "" then narrow.orderNumber else wide.orderNumber,
         if narrow.seller != "" then narrow.seller else wide.seller)
  }

  /** The fields of the block `block` after the single escalation step. */
  function ResolveMeta(doc: Page, block: nat): Meta
    requires WellFormed(doc) && block < |doc.nodes|
  {
    var narrow := ExtractMeta(Clean(doc.nodes[block].text));
    var parent := doc.nodes[block].parent;
    if NeedsWiderBlock(narrow) && parent.Some? then
      Merge(narrow, ExtractMeta(Clean(doc.nodes[parent.value].text)))
    else narrow
  }

  /** Escalation fills only empty fields, consults the parent only when a
      field is missing and there is a parent, keeps the currency tied to
      the total, and leaves every field empty when neither block has any. */
  lemma ResolveMetaProperties(doc: Page, block: nat)
    requires WellFormed(doc) && block < |doc.nodes|
    ensures var narrow, m := ExtractMeta(Clean(doc.nodes[block].text)), ResolveMeta(doc, block);
      && (narrow.total != "" ==> m.total == narrow.total)
      && (narrow.currency != "" ==> m.currency == narrow.currency)
      && (narrow.orderNumber != "" ==> m.orderNumber == narrow.orderNumber)
      && (narrow.seller != "" ==> m.seller == narrow.seller)
      && (!NeedsWiderBlock(narrow) || IsRoot(doc, block) ==> m == narrow)
      && WellFormedMeta(m)
    ensures var narrow := ExtractMeta(Clean(doc.nodes[block].text));
      doc.nodes[block].parent.Some? && NeedsWiderBlock(narrow) ==>
        ResolveMeta(doc, block) ==
        Merge(narrow, ExtractMeta(Clean(doc.nodes[doc.nodes[block].parent.value].text)))
  {
  }

  /** With no field in the block nor in its parent, the record stays empty:
      escalation does not go further out. */
  lemma EscalationStopsAtParent(doc: Page, block: nat)
    requires WellFormed(doc) && block < |doc.nodes|
    requires ExtractMeta(Clean(doc.nodes[block].text)) == Meta("", "", "", "")
    requires doc.nodes[block].parent.Some? ==>
      ExtractMeta(Clean(doc.nodes[doc.nodes[block].parent.value].text)) == Meta("", "", "", "")
    ensures ResolveMeta(doc, block) == Meta("", "", "", "")
  {
  }

  /** The record of link node `n` (lines 95-119 without the filters). */
  function ItemRecord(doc: Page, n: nat): Record
    requires WellFormed(doc) && n < |doc.nodes|
  {
    var m := ResolveMeta(doc, BlockOf(doc, n));
    Record(m.seller, Title(doc, n), m.total, m.currency, m.orderNumber)
  }

  // ---------------------------------------------------------------------
  // Which links are kept (lines 87-99)
  // ---------------------------------------------------------------------

  /** Link `k` yields a record: its title is usable, no EARLIER link had
      the same title (the title is marked seen at line 93, before the year
      filter, so this holds even when that earlier link was filtered out),
      and its block does not show only other years. */
  predicate Kept(doc: Page, links: seq<nat>, k: nat, year: int)
    requires LinksIn(doc, links) && k < |links|
  {
    && IsItemTitle(Title(doc, links[k]))
    && (forall j :: 0 <= j < k ==> Title(doc, links[j]) != Title(doc, links[k]))
    && !IsForeignYearBlock(YearsIn(BlockText(doc, links[k])), year)
  }

  /** `Kept` for every position of `links`. */
  function KeptFlags(doc: Page, links: seq<nat>, year: int): (flags: seq<bool>)
    requires LinksIn(doc, links)
    ensures |flags| == |links|
    ensures forall k :: 0 <= k < |links| ==> flags[k] == Kept(doc, links, k, year)
  {
    seq(|links|, k requires 0 <= k < |links| => Kept(doc, links, k, year))
  }

  /** The positions of the kept links among the first `n`, in order. */
  function KeptIndices(doc: Page, links: seq<nat>, n: nat, year: int): (ks: seq<nat>)
    requires LinksIn(doc, links) && n <= |links|
  {
    IndicesWhere(KeptFlags(doc, links, year), n)
  }

  /** The records of the link nodes `ns`, in that order. */
  function RecordsOf(doc: Page, ns: seq<nat>): (rs: seq<Record>)
    requires WellFormed(doc) && forall k :: 0 <= k < |ns| ==> ns[k] < |doc.nodes|
  {
    seq(|ns|, k requires 0 <= k < |ns| => ItemRecord(doc, ns[k]))
  }

  /** One more link node adds its record at the end. */
  lemma RecordsOfSnoc(doc: Page, ns: seq<nat>, n: nat)
    requires WellFormed(doc) && n < |doc.nodes|
    requires forall k :: 0 <= k < |ns| ==> ns[k] < |doc.nodes|
    ensures RecordsOf(doc, ns + [n]) == RecordsOf(doc, ns) + [ItemRecord(doc, n)]
  {
    var ms := ns + [n];
    var l, r := RecordsOf(doc, ms), RecordsOf(doc, ns) + [ItemRecord(doc, n)];
    forall k | 0 <= k < |l| ensures l[k] == r[k] {
      if k < |ns| {
        assert ms[k] == ns[k];
      }
    }
  }

  /** The link nodes among the first `n` links that yield a record, in
      the order of `links`. */
  function KeptLinks(doc: Page, links: seq<nat>, n: nat, year: int): (ns: seq<nat>)
    requires LinksIn(doc, links) && n <= |links|
    ensures forall k :: 0 <= k < |ns| ==> ns[k] < |doc.nodes|
  {
    Pick(links, KeptIndices(doc, links, n, year))
  }

  /** One more link adds its node at the end exactly when it is kept. */
  lemma KeptLinksStep(doc: Page, links: seq<nat>, i: nat, year: int)
    requires LinksIn(doc, links) && i < |links|
    ensures KeptLinks(doc, links, i + 1, year) ==
            KeptLinks(doc, links, i, year) + (if Kept(doc, links, i, year) then [links[i]] else [])
  {
    PickWhereStep(links, KeptFlags(doc, links, year), i);
  }

  /** What `parse_page_list_only` returns for a page. */
  function Parsed(doc: Page, year: int): seq<Record>
    requires WellFormed(doc)
  {
    var links := ItemLinks(doc);
    RecordsOf(doc, KeptLinks(doc, links, |links|, year))
  }

  /** The titles of the links before position `n` that passed line 89. */
  function SeenTitles(doc: Page, links: seq<nat>, n: nat): set<string>
    requires LinksIn(doc, links) && n <= |links|
  {
    set j | 0 <= j < n && IsItemTitle(Title(doc, links[j])) :: Title(doc, links[j])
  }

  predicate TitlesDistinct(rs: seq<Record>) {
    forall i, j :: 0 <= i < j < |rs| ==> rs[i].itemTitle != rs[j].itemTitle
  }

  /** A record as the loop builds it: a usable normalised title and fields
      of the shape extraction produces. */
  predicate WellFormedRecord(r: Record) {
    && IsClean(r.itemTitle)
    && IsItemTitle(r.itemTitle)
    && WellFormedMeta(Meta(r.orderTotal, r.currency, r.orderNumber, r.seller))
  }

  /** Lines 101-111: extract the fields of the block, and when one of
      total, order number and seller is missing and the block has a parent,
      fill the missing ones from the parent block. */
  method ResolveFields(doc: Page, blockText: string, block: nat)
    returns (total: string, currency: string, orderNumber: string, seller: string)
    requires WellFormed(doc) && block < |doc.nodes|
    requires blockText == Clean(doc.nodes[block].text)
    ensures Meta(total, currency, orderNumber, seller) == ResolveMeta(doc, block)
  {
    var m := ExtractMeta(blockText);
    total, currency, orderNumber, seller := m.total, m.currency, m.orderNumber, m.seller;
    if !(total != "" && orderNumber != "" && seller != "") {
      var parent := doc.nodes[block].parent;
      if parent.Some? {
        var siblingText := Clean(doc.nodes[parent.value].text);
        var m2 := ExtractMeta(siblingText);
        total := if total != "" then total else m2.total;
        currency := if currency != "" then currency else m2.currency;
        orderNumber := if orderNumber != "" then orderNumber else m2.orderNumber;
        seller := if seller != "" then seller else m2.seller;
        assert Meta(total, currency, orderNumber, seller) == Merge(m, m2);
      }
    }
  }

  /** One more link: its title joins the seen set when it is usable and
      not seen yet; otherwise the set stays as it was. */
  lemma SeenTitlesStep(doc: Page, links: seq<nat>, i: nat)
    requires LinksIn(doc, links) && i < |links|
    ensures var t, seen := Title(doc, links[i]), SeenTitles(doc, links, i);
            SeenTitles(doc, links, i + 1) == if IsItemTitle(t) && t !in seen then seen + {t} else seen
  {
  }

  /** The loop's test on the seen set decides the "first of its title"
      part of `Kept`. */
  lemma KeptBySeenSet(doc: Page, links: seq<nat>, i: nat, year: int)
    requires LinksIn(doc, links) && i < |links|
    ensures Kept(doc, links, i, year) <==>
            && IsItemTitle(Title(doc, links[i]))
            && Title(doc, links[i]) !in SeenTitles(doc, links, i)
            && !IsForeignYearBlock(YearsIn(BlockText(doc, links[i])), year)
  {
  }

  /** One iteration of the loop over the links: the records grow by the
      record of link `i` exactly when it is kept. */
  lemma RecordsStep(doc: Page, links: seq<nat>, i: nat, year: int)
    requires LinksIn(doc, links) && i < |links|
    ensures RecordsOf(doc, KeptLinks(doc, links, i + 1, year)) ==
            RecordsOf(doc, KeptLinks(doc, links, i, year)) +
            (if Kept(doc, links, i, year) then [ItemRecord(doc, links[i])] else [])
  {
    KeptLinksStep(doc, links, i, year);
    if Kept(doc, links, i, year) {
      RecordsOfSnoc(doc, KeptLinks(doc, links, i, year), links[i]);
    }
  }

  /** The body of the loop at lines 87-119 for link `i`: mark a usable
      new title as seen, resolve its block, apply the year filter, and
      append the record. */
  method VisitLink(doc: Page, links: seq<nat>, i: nat, year: int,
                   seen: set<string>, records: seq<Record>)
    returns (seen': set<string>, records': seq<Record>)
    requires LinksIn(doc, links) && i < |links|
    requires seen == SeenTitles(doc, links, i)
    requires records == RecordsOf(doc, KeptLinks(doc, links, i, year))
    ensures seen' == SeenTitles(doc, links, i + 1)
    ensures records' == RecordsOf(doc, KeptLinks(doc, links, i + 1, year))
  {
    seen', records' := seen, records;
    var a := links[i];
    var title := Clean(doc.nodes[a].text);
    SeenTitlesStep(doc, links, i);
    KeptBySeenSet(doc, links, i, year);
    RecordsStep(doc, links, i, year);
    if IsItemTitle(title) && title !in seen {
      seen' := seen + {title};
      var blockText, block := NearestTextBlock(doc, a);
      var years := YearsIn(blockText);
      if !IsForeignYearBlock(years, year) {
        var total, currency, orderNumber, seller := ResolveFields(doc, blockText, block);
        records' := records + [Record(seller, title, total, currency, orderNumber)];
      }
    }
  }

  /** `parse_page_list_only(html, target_year)`. */
  method ParsePage(doc: Page, year: int) returns (records: seq<Record>)
    requires WellFormed(doc)
    ensures records == Parsed(doc, year)
    ensures TitlesDistinct(records)
    ensures forall k :: 0 <= k < |records| ==> WellFormedRecord(records[k])
  {
    var links := ItemLinks(doc);
    assert LinksIn(doc, links);
    var seen: set<string> := {};
    records := [];
    assert KeptIndices(doc, links, 0, year) == [];
    var i := 0;
    while i < |links|
      invariant 0 <= i <= |links|
      invariant seen == SeenTitles(doc, links, i)
      invariant records == RecordsOf(doc, KeptLinks(doc, links, i, year))
    {
      seen, records := VisitLink(doc, links, i, year, seen, records);
      i := i + 1;
    }
    ParsedProperties(doc, year);
  }

  /** A kept link's record has a usable normalised title and well-formed
      fields. */
  lemma KeptRecordWellFormed(doc: Page, links: seq<nat>, p: nat, year: int)
    requires LinksIn(doc, links) && p < |links| && Kept(doc, links, p, year)
    ensures WellFormedRecord(ItemRecord(doc, links[p]))
  {
    CleanIsNormal(doc.nodes[links[p]].text);
    ResolveMetaProperties(doc, BlockOf(doc, links[p]));
  }

  /** A kept link's title differs from the title of every earlier link. */
  lemma KeptTitleIsNew(doc: Page, links: seq<nat>, p: nat, q: nat, year: int)
    requires LinksIn(doc, links) && p < q < |links| && Kept(doc, links, q, year)
    ensures ItemRecord(doc, links[p]).itemTitle != ItemRecord(doc, links[q]).itemTitle
  {
  }

  /** Records appear in the document order of their item links: record
      `k` is the record of the `k`-th kept link, and the link nodes of
      successive records are strictly increasing. */
  lemma ParsedInDocumentOrder(doc: Page, year: int)
    requires WellFormed(doc)
    ensures var links := ItemLinks(doc);
            var ks := KeptIndices(doc, links, |links|, year);
            && |Parsed(doc, year)| == |ks|
            && (forall k :: 0 <= k < |ks| ==> Parsed(doc, year)[k] == ItemRecord(doc, links[ks[k]]))
            && (forall k, l :: 0 <= k < l < |ks| ==> links[ks[k]] < links[ks[l]])
  {
    var links := ItemLinks(doc);
    var ks := KeptIndices(doc, links, |links|, year);
    var ns := KeptLinks(doc, links, |links|, year);
    var rs := Parsed(doc, year);
    assert ns == Pick(links, ks);
    forall k | 0 <= k < |ks| ensures rs[k] == ItemRecord(doc, links[ks[k]]) {
      assert ns[k] == links[ks[k]];
    }
    forall k, l | 0 <= k < l < |ks| ensures links[ks[k]] < links[ks[l]] {
      assert Ascending(ks, k, l) && Ascending(links, ks[k], ks[l]);
    }
  }

  /** The output has pairwise distinct, normalised titles of at least four
      characters, and every record's fields have the extracted shape. */
  lemma ParsedProperties(doc: Page, year: int)
    requires WellFormed(doc)
    ensures TitlesDistinct(Parsed(doc, year))
    ensures forall k :: 0 <= k < |Parsed(doc, year)| ==> WellFormedRecord(Parsed(doc, year)[k])
  {
    ParsedInDocumentOrder(doc, year);
    var links := ItemLinks(doc);
    var flags := KeptFlags(doc, links, year);
    var ks := KeptIndices(doc, links, |links|, year);
    var rs := Parsed(doc, year);
    forall i, j | 0 <= i < j < |rs| ensures rs[i].itemTitle != rs[j].itemTitle {
      assert flags[ks[j]] && Ascending(ks, i, j);
      KeptTitleIsNew(doc, links, ks[i], ks[j], year);
    }
    forall k | 0 <= k < |rs| ensures WellFormedRecord(rs[k]) {
      assert flags[ks[k]];
      KeptRecordWellFormed(doc, links, ks[k], year);
    }
  }
}
