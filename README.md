# eBay purchase-list extraction, modelled in Dafny

This project models the record-extraction core of `ebay_purchases_list_only.py`. That core takes one rendered page of an eBay purchase history and a target year. It returns one row per purchased item, with the fields seller, item title, order total, currency and order number. The rows of all pages are then post-processed into the final table.

The model has the following modules:

- `Text` (text.dfy): `clean`, i.e. `" ".join(s.split())`. It is modelled as `Join(Words(s))` over Python's whitespace set.
- `Labels` (labels.dfy):
  - the three label tables: the total and order-number tables have English, Czech, German, Spanish, French and Italian variants, and the seller table has the same languages except Italian;
  - `MONEY_RE`;
  - `extract_meta_from_text`.

  Each `re.search` is written out as a scanner. The scanner tries start positions left to right and, at each position, tries the label variants in table order. Whitespace skipping is greedy. The seller group is lazy and backtracks over the `\s*` in front of it.
- `Years` (years.dfy): the year tokens `\b(20\d{2})\b` of a block and the rule that drops a link because of them.
- `Document` (document.dfy): the parsed page as an arena tree. Every node stores the index of its parent and the text of its subtree. The module also holds `nearest_text_block`, a method with the source's three-step loop, and the item-link list.
- `Extraction` (extraction.dfy): `parse_page_list_only`.
  - `ParsePage` is the source's loop.
  - `VisitLink` is the loop's body.
  - `ResolveFields` is the single escalation to the parent block.
  - `ParsePage` is proved equal to `Parsed`, a declarative description: the records of the links that `Kept` admits, in document order.
- `Assembly` (assembly.dfy): the post-processing in `main`. It drops rows with neither a title nor a total, back-fills a missing currency from the total with `sym_from_total`, and runs `drop_duplicates`.
- `SampleLine` (sample_line.dfy): `extract_meta_from_text` worked through on one order card's text. It shows which variant each search matches, where, and what the four fields become, how a blank seller field hides a later one, and how a capitalised label still matches.
- `Indices` and `Wrappers` hold the shared helpers: selecting positions of a sequence, and `Option`.

Some consequences of the code that the model keeps:

- **Post-processing order.** The post-processing (lines 253-263) filters first, then back-fills the currency, then drops exact duplicates of the five-field row. Titles are made unique only within one page, by the seen set at lines 91-93. `PostProcess` composes the three steps in this order.
- **Seen titles and the year filter.** A title is marked as seen (line 93) before the year filter runs (line 98). So a link dropped by the year filter still hides every later link with the same title. `Kept` states this.
- **Year filter.** The filter drops a link exactly when its block shows at least one year and not the target year. The third clause of line 98 adds nothing to this (`ForeignYearBlockIff`).
- **No input checks.** `parse_page_list_only` does not check for an empty document or a non-positive year. An empty page yields no rows, and any integer is accepted as the year.

## Model

| member | source | states |
|---|---|---|
| Text.Words | ebay_purchases_list_only.py:39 | every element of `s.split()` is a non-empty run without whitespace |
| Text.IsSpace | ebay_purchases_list_only.py:39 | the whitespace set of `str.split()` and of `\s`: Python's `isspace()` characters, U+00A0 among them (the definition; `WordsAfterSpace` and `SkipSpaces` use it) |
| Text.Join | ebay_purchases_list_only.py:39 | `" ".join(ws)` (the definition; `JoinIsClean` and `WordsOfJoin` state what it yields) |
| Text.Clean | ebay_purchases_list_only.py:38-39 | `clean(s)`: the words of `s.split()` joined by single spaces (the definition; its properties are the lemmas below) |
| Text.CleanIsNormal | ebay_purchases_list_only.py:38-39 | `clean(s)` is in normal form (no whitespace at either end, only single ordinary spaces inside), has exactly the words of `s`, and is empty iff `s` is all whitespace (including U+00A0) |
| Text.JoinIsClean | ebay_purchases_list_only.py:39 | joining words with one space gives a normal-form string that is empty iff there are no words |
| Text.WordsOfJoin | ebay_purchases_list_only.py:39 | splitting undoes joining: `Words(Join(ws)) == ws` for any list of words |
| Text.JoinOfWordsOfClean | ebay_purchases_list_only.py:39 | joining undoes splitting on a normal-form string |
| Text.CleanFixpoints | ebay_purchases_list_only.py:38-39 | `clean(t) == t` iff `t` is in normal form; `clean` is idempotent |
| Text.CleanCharacters | ebay_purchases_list_only.py:39 | `clean` introduces no character other than the space |
| Text.WordsEmpty | ebay_purchases_list_only.py:39 | `s.split()` is empty iff `s` is all whitespace |
| Text.WordsAfterSpace | ebay_purchases_list_only.py:39 | a leading whitespace character of any kind (space, tab, newline, U+00A0, …) is skipped by `split()`; with `WordsOfWord` and `WordsOfWordThen` this fixes the words of every string |
| Text.WordsOfWord | ebay_purchases_list_only.py:39 | a non-empty string without whitespace splits into itself alone |
| Text.WordsOfWordThen | ebay_purchases_list_only.py:39 | a word followed by whitespace or the end splits off as the first word |
| Text.WordsMixedWhitespace | ebay_purchases_list_only.py:39 | `"\xa0a\t b ".split()` is ["a", "b"], derived from the three lemmas above alone |
| Text.CleanMixedWhitespace | ebay_purchases_list_only.py:38-39 | `clean("\xa0a\t b ")` is "a b" |
| Labels.MoneyEnd | ebay_purchases_list_only.py:36 | a `MONEY_RE` match runs from the symbol over whitespace and then a maximal non-empty run of digits, '.' and ',' |
| Labels.MoneySymbolFrom | ebay_purchases_list_only.py:255-257 | the search returns "" iff `MONEY_RE` matches at no position, and otherwise the symbol of the leftmost match |
| Labels.MoneySymbol | ebay_purchases_list_only.py:255-257 | `sym_from_total` yields "" or one of £, $, € |
| Labels.MoneySymbolOfMoney | ebay_purchases_list_only.py:67-68 | a total found by the search starts with its own currency symbol, which is what the currency lookup returns |
| Labels.MoneyAt | ebay_purchases_list_only.py:36 | `MONEY_RE` matches at a position: a currency symbol, whitespace, then an amount character (the definition; `MoneyEnd` and `MoneySymbolFrom` build on it) |
| Labels.SkipSpaces | ebay_purchases_list_only.py:64 | a greedy `\s*` from `i` stops at the first non-whitespace character or the end, having passed only whitespace |
| Labels.SkipAmount | ebay_purchases_list_only.py:36 | a greedy `[\d\.,]+` run from `i` stops at the first character outside the class or the end |
| Labels.SkipOrderChars | ebay_purchases_list_only.py:70 | a greedy `[0-9A-Za-z\-]+` run from `i` stops at the first character outside the class or the end |
| Labels.TotalValue | ebay_purchases_list_only.py:64-66 | the total group is found iff `MONEY_RE` matches right after the whitespace that follows the colon; a found total is a symbol, whitespace and a maximal run of amount characters, and nothing else |
| Labels.TotalValueExtent | ebay_purchases_list_only.py:64-66 | a found total is exactly the text from the end of the whitespace up to the end of the maximal amount run |
| Labels.OrderNumberValue | ebay_purchases_list_only.py:70-72 | the order-number group is missing iff no order character follows the whitespace after the colon; a found one is a non-empty token of letters, digits and '-' |
| Labels.OrderNumberValueExtent | ebay_purchases_list_only.py:70-72 | a found order number is exactly the maximal run of order characters after the whitespace |
| Labels.LazyGroupEnd | ebay_purchases_list_only.py:74 | the lazy seller group ends at the first position after which `\s*(?:\||·|$)` matches, and contains no stop character; it fails only when a stop character comes before any such position |
| Labels.SellerEndsAt | ebay_purchases_list_only.py:74 | `\s*(?:\||·|$)` matches at a position: whitespace, then `|`, `·` or the end of the text (the definition; `LazyGroupEnd` and `GroupEnd` state where the group stops) |
| Labels.GroupEnd | ebay_purchases_list_only.py:74 | a group started at `s` takes at least one character, ends at the first place where `\s*(?:\||·|$)` matches, and has no stop character before that end; it fails only when `s` is the end of the text, holds a stop character, or a stop character comes before any such place |
| Labels.GroupAt | ebay_purchases_list_only.py:74 | a group starts at `s` exactly when `GroupEnd` finds an end there, and it is the text from `s` to that end: non-empty and free of stop characters |
| Labels.LatestIsLatest | ebay_purchases_list_only.py:74 | the backtracking of the `\s*` before the group fails iff no start position yields a group, and otherwise returns the group of the latest start that does |
| Labels.SellerGroup | ebay_purchases_list_only.py:74-76 | the seller group found after backtracking is non-empty and free of '|', '·', CR and LF |
| Labels.SellerGroupIsLatestStart | ebay_purchases_list_only.py:74 | the seller group is missing iff no start between the colon and the end of the whitespace yields a group, and otherwise it is the group of the latest start that does |
| Labels.ColonEnd | ebay_purchases_list_only.py:64 | `\s*:` after a label ends just past a colon with only whitespace before it; it fails only when every colon after the label has a non-space character before it |
| Labels.ValueAfterColon | ebay_purchases_list_only.py:64-74 | the value group after the colon of each search has the shape of its concept |
| Labels.VariantAt | ebay_purchases_list_only.py:64 | one label variant yields a value only when the label is at the position, case-insensitively, and the value has the concept's shape |
| Labels.VariantAtFails | ebay_purchases_list_only.py:64 | one label variant fails at a position iff the label is absent there, or no colon follows it after whitespace, or no value follows the colon; otherwise its value is the value after the colon |
| Labels.MatchLabelsAt | ebay_purchases_list_only.py:33-35 | the value matched by the label alternation at a position has the concept's value shape |
| Labels.FirstOfIsFirst | ebay_purchases_list_only.py:33-35 | an alternation fails iff every alternative fails, and otherwise returns the result of the first alternative that succeeds |
| Labels.MatchLabelsAtIsFirstVariant | ebay_purchases_list_only.py:33-35 | the match at a position fails iff every label variant fails there, and otherwise is the value of the first variant, in table order, that succeeds |
| Labels.MatchAt | ebay_purchases_list_only.py:64 | the value matched at a position has the shape of its concept's value group |
| Labels.Variants | ebay_purchases_list_only.py:33-35 | the label variants of each concept, in the order of the alternation (the definition) |
| Labels.LabelAt | ebay_purchases_list_only.py:33-35 | a label variant occurs at a position, compared character by character after case folding (the definition; `VariantAt` and `SampleLine.ShoutedLabel` use it) |
| Labels.Fold | ebay_purchases_list_only.py:64 | the case folding of `re.I` on the characters of the labels (the definition) |
| Labels.LeftmostIsLeftmost | ebay_purchases_list_only.py:64 | the scan fails iff no position matches, and otherwise returns the match of the leftmost matching position |
| Labels.SearchIsLeftmost | ebay_purchases_list_only.py:64-76 | each `re.search` fails iff its pattern matches nowhere in the text, and otherwise returns the leftmost match |
| Labels.Search | ebay_purchases_list_only.py:64 | a value returned by `re.search` has the shape of its concept's value group |
| Labels.SellerNameOfGroup | ebay_purchases_list_only.py:74-76 | `clean` of a seller group is in normal form and holds no field separator |
| Labels.ExtractMeta | ebay_purchases_list_only.py:61-78 | the total is group 2 of its search when that matches and "" otherwise, and so is the order number; the seller is `clean` of the seller search's group 2, or ""; the currency is "" exactly when the total is, and otherwise the total's symbol; hence the total is "" or a money amount, the order number "" or a token, and the seller a normalised name without separators |
| SampleLine.TotalFound | ebay_purchases_list_only.py:64-66 | on the sample card, the total search finds "£23.99" at the start of the text |
| SampleLine.NumberFound | ebay_purchases_list_only.py:70-72 | on the sample card, the order-number search finds "12-3456789-0"; the "Order total" label before it does not match "Order number" |
| SampleLine.LazyGroupEndAt | ebay_purchases_list_only.py:74 | the lazy group reaches the first end position when no stop character lies before it |
| SampleLine.SellerFound | ebay_purchases_list_only.py:74-76 | on the sample card, the seller group stops before " · 2024" and is "Acme Traders" |
| SampleLine.SellerClean | ebay_purchases_list_only.py:76 | `clean` leaves "Acme Traders" unchanged |
| SampleLine.ExtractMetaOfLine | ebay_purchases_list_only.py:61-78 | `extract_meta_from_text` on "Order total: £23.99 \| Order number: 12-3456789-0 \| Sold by: Acme Traders · 2024" returns ("£23.99", "£", "12-3456789-0", "Acme Traders") |
| SampleLine.BlankSellerIsEmpty | ebay_purchases_list_only.py:74-76 | on "Sold by: \| Sold by: Bob" the seller search matches at the first label with the group " " (the `\s*` gives its space back), so the seller is "" |
| SampleLine.ShoutedLabel | ebay_purchases_list_only.py:33 | with `re.I`, "ORDER TOTAL" matches the variant "Order total", though the strings differ |
| SampleLine.ShoutedTotalFound | ebay_purchases_list_only.py:64-66 | the total search on "ORDER TOTAL: $5" finds "$5" |
| Years.YearValue | ebay_purchases_list_only.py:97 | every year token denotes a year in 2000..2099 |
| Years.YearTokenAt | ebay_purchases_list_only.py:97 | `\b(20\d{2})\b` matches at a position (the definition; `YearsExactly` and `NoOverlappingTokens` build on it) |
| Years.YearsFrom | ebay_purchases_list_only.py:97 | the `findall` scan from a position, resuming after each match (the definition; `YearsFromExactly` states what it finds) |
| Years.NoOverlappingTokens | ebay_purchases_list_only.py:97 | no year token starts inside another one |
| Years.YearsFromExactly | ebay_purchases_list_only.py:97 | the non-overlapping `findall` scan from a position finds a year iff some token from that position on spells it |
| Years.YearsExactly | ebay_purchases_list_only.py:97 | a year is in a block's year set iff a token of the block spells it, and every such year is in 2000..2099 |
| Years.YearsIn | ebay_purchases_list_only.py:97 | the set of years of `re.findall(r"\b(20\d{2})\b", block_txt)` (the definition; `YearsExactly` states what it holds) |
| Years.IsForeignYearBlock | ebay_purchases_list_only.py:98 | the drop condition of line 98 with its three clauses (the definition; `ForeignYearBlockIff` simplifies it) |
| Years.ForeignYearBlockIff | ebay_purchases_list_only.py:98-99 | a link is dropped iff its block shows some year and not the target year |
| Years.TargetYearBlockKept | ebay_purchases_list_only.py:97-99 | a block showing "2023 2024" is kept for target year 2024 |
| Years.OtherYearBlockDropped | ebay_purchases_list_only.py:97-99 | a block showing only "2023" is dropped for target year 2024 |
| Years.YearlessBlockKept | ebay_purchases_list_only.py:97-99 | a block without any year is kept |
| Document.AncestorAt | ebay_purchases_list_only.py:56-58 | the `j`-th ancestor of a node, if there is one, is a node of the page |
| Document.Climb | ebay_purchases_list_only.py:56-58 | `k` rounds of "go to the parent if there is one" end at a node of the page |
| Document.ClimbIsBoundedAncestor | ebay_purchases_list_only.py:56-58 | three rounds of "go to the parent if there is one" end at the third ancestor, or earlier at the root |
| Document.ClimbStaysAtRoot | ebay_purchases_list_only.py:57 | once at the root, the climb stays there |
| Document.NearestTextBlock | ebay_purchases_list_only.py:54-59 | the loop returns the node three parent links up, or the root reached earlier, together with that node's cleaned text |
| Document.ItemLinks | ebay_purchases_list_only.py:84 | every item link is an `<a href>` node whose target contains `/itm/`, and the links are listed in strictly increasing document order |
| Document.ItemLinksComplete | ebay_purchases_list_only.py:84 | every `<a href>` node whose target contains `/itm/` is among the item links |
| Document.IsItemLink | ebay_purchases_list_only.py:84 | an `<a>` node with an `href` containing `/itm/` (the definition; `ItemLinks` and `ItemLinksComplete` select exactly these) |
| Indices.IndicesWhere | ebay_purchases_list_only.py:84 | every selected position is flagged and below the bound, and the positions strictly increase |
| Indices.IndicesWhereComplete | ebay_purchases_list_only.py:84 | every flagged position below the bound is selected |
| Extraction.ResolveFields | ebay_purchases_list_only.py:101-111 | the fields the method computes equal `ResolveMeta`: the block's extraction, with the parent's extraction merged in once when a field is missing and the block has a parent |
| Extraction.Merge | ebay_purchases_list_only.py:108-111 | `x or y` on each of the four fields (the definition; `ResolveMetaProperties` states what it keeps) |
| Extraction.ResolveMeta | ebay_purchases_list_only.py:101-111 | the block's extraction, merged once with the parent's when a field is missing and a parent exists (the definition; `ResolveMetaProperties` and `EscalationStopsAtParent` state its properties) |
| Extraction.ItemRecord | ebay_purchases_list_only.py:113-119 | the five-field row of a link: its seller, title, total, currency and order number (the definition; `KeptRecordWellFormed` states its shape) |
| Extraction.Title | ebay_purchases_list_only.py:88 | `clean(a.get_text(" "))` of a link (the definition; `KeptRecordWellFormed` states that a kept title is normalised) |
| Extraction.IsItemTitle | ebay_purchases_list_only.py:89-90 | a title is usable when it is non-empty and at least four characters long (the definition; `KeptFlags` uses it) |
| Extraction.NeedsWiderBlock | ebay_purchases_list_only.py:103 | a total, an order number or a seller is still missing (the definition; `ResolveMetaProperties` states what escalation does) |
| Extraction.SeenTitles | ebay_purchases_list_only.py:85-93 | the usable titles of the links before a position (the definition; `SeenTitlesStep` and `KeptBySeenSet` tie it to the loop's set) |
| Extraction.ResolveMetaProperties | ebay_purchases_list_only.py:103-111 | escalation never overwrites a non-empty field; it changes nothing when all three fields are present or the block is the root; otherwise it is the field-wise merge; the result keeps the extracted shape |
| Extraction.EscalationStopsAtParent | ebay_purchases_list_only.py:103-111 | when neither the block nor its parent yields a field, the fields stay empty: escalation goes out only one level |
| Extraction.KeptFlags | ebay_purchases_list_only.py:89-99 | flag `k` is set iff link `k` has a usable title, no earlier link has the same title, and its block passes the year filter |
| Extraction.KeptLinksStep | ebay_purchases_list_only.py:87-99 | one more link adds its node to the kept links at the end exactly when the link is kept |
| Extraction.Kept | ebay_purchases_list_only.py:89-99 | a link is kept iff its title is usable, no earlier link has that title, and its block passes the year filter (the definition; `KeptFlags` and `KeptBySeenSet` connect it to the loop) |
| Extraction.SeenTitlesStep | ebay_purchases_list_only.py:91-93 | the seen set grows by a link's title exactly when the title is usable and new |
| Extraction.KeptBySeenSet | ebay_purchases_list_only.py:89-99 | the loop's seen-set test decides the "first link with this title" part of `Kept` |
| Extraction.RecordsStep | ebay_purchases_list_only.py:87-119 | one iteration appends the link's record exactly when the link is kept |
| Extraction.RecordsOfSnoc | ebay_purchases_list_only.py:113-119 | one more kept link appends its record at the end of the records |
| Extraction.VisitLink | ebay_purchases_list_only.py:87-119 | the loop body carries the seen set and the records from the first `i` links to the first `i + 1` |
| Extraction.ParsePage | ebay_purchases_list_only.py:80-121 | the loop returns `Parsed`, the records of the kept links in document order; their titles are pairwise distinct, and every record is well formed |
| Extraction.KeptRecordWellFormed | ebay_purchases_list_only.py:88-119 | a kept link's record has a normalised title of at least four characters and fields of the extracted shape |
| Extraction.KeptTitleIsNew | ebay_purchases_list_only.py:91-93 | a kept link's title differs from the title of every earlier link |
| Extraction.ParsedInDocumentOrder | ebay_purchases_list_only.py:84-119 | record `k` is the record of the `k`-th kept link, and the link nodes of successive records strictly increase |
| Extraction.ParsedProperties | ebay_purchases_list_only.py:80-121 | the parsed records have pairwise distinct titles, and each is well formed |
| Extraction.Parsed | ebay_purchases_list_only.py:80-121 | the records of the kept item links, in document order (the definition; `ParsePage` is proved equal to it) |
| Assembly.DropEmpty | ebay_purchases_list_only.py:253 | a row survives iff it has a title or a total; no row is added |
| Assembly.HasTitleOrTotal | ebay_purchases_list_only.py:253 | a row has a non-empty title or a non-empty total (the definition; `DropEmpty` keeps exactly these rows) |
| Assembly.DropEmptyAppend | ebay_purchases_list_only.py:253 | filtering the concatenation of two pages' rows filters each page separately |
| Assembly.DropEmptyKeepsFull | ebay_purchases_list_only.py:253 | rows that all have a title or a total are kept unchanged |
| Assembly.BackFillCurrency | ebay_purchases_list_only.py:258-261 | only the currency can change; a present currency is kept; a missing one ("", "nan", "NaN") becomes `sym_from_total` of the total, which is "" or one currency symbol |
| Assembly.IsMissingCurrency | ebay_purchases_list_only.py:259 | the currency cell is "", "nan" or "NaN" (the definition; `BackFillCurrency` fills exactly these) |
| Assembly.BackFillFromLeftmostMatch | ebay_purchases_list_only.py:255-261 | a missing currency becomes "" exactly when `MONEY_RE` matches nowhere in the total, and otherwise the symbol of its leftmost match |
| Assembly.BackFillWithoutMoney | ebay_purchases_list_only.py:255-261 | a missing currency next to the total "abc" stays "" |
| Assembly.BackFillFromTotal | ebay_purchases_list_only.py:255-261 | a missing currency next to a money total becomes that total's symbol |
| Assembly.BackFillIdempotent | ebay_purchases_list_only.py:258-261 | back-filling twice is the same as back-filling once |
| Assembly.BackFillOfParsed | ebay_purchases_list_only.py:258-261 | a record as parsing produces it is left unchanged by the back-fill |
| Assembly.BackFillAll | ebay_purchases_list_only.py:258-261 | the back-fill maps each row to its back-filled version, position by position |
| Assembly.DedupUpTo | ebay_purchases_list_only.py:263 | the scan of `drop_duplicates` over a prefix (the definition; `DedupUpToContents` and `DedupPrefix` state what it keeps) |
| Assembly.Dedup | ebay_purchases_list_only.py:263 | `drop_duplicates()` with `keep="first"` (the definition; `DedupContents` and `DedupKeepsFirstOccurrences` state what it keeps) |
| Assembly.DedupUpToContents | ebay_purchases_list_only.py:263 | scanning a prefix keeps every value of the prefix, adds none, and leaves no duplicates |
| Assembly.DedupContents | ebay_purchases_list_only.py:263 | `drop_duplicates` keeps every value of its input, adds none, and leaves no duplicates |
| Assembly.DedupUpToStep | ebay_purchases_list_only.py:263 | scanning one more row appends it exactly when it is the first occurrence of its value |
| Assembly.FirstOccurrencesStep | ebay_purchases_list_only.py:263 | one more position adds its element to the first occurrences exactly when that element does not occur earlier |
| Assembly.DedupPrefix | ebay_purchases_list_only.py:263 | the deduplication of a prefix consists of the first occurrences in that prefix, in order |
| Assembly.DedupKeepsFirstOccurrences | ebay_purchases_list_only.py:263 | `drop_duplicates` (keep="first") keeps exactly the first occurrences, in their original order |
| Assembly.DedupUpToOfDistinct | ebay_purchases_list_only.py:263 | without duplicates, scanning a prefix returns the prefix itself |
| Assembly.DedupOfDistinct | ebay_purchases_list_only.py:263 | a sequence without duplicates is left unchanged, so deduplication is idempotent |
| Assembly.PostProcess | ebay_purchases_list_only.py:253-263 | filter, back-fill, then deduplicate, in this order (the definition; `PostProcessContents` states the result) |
| Assembly.PostProcessContents | ebay_purchases_list_only.py:253-263 | the output has no duplicate rows, and its rows are exactly the back-filled input rows that have a title or a total |
| Assembly.PostProcessOfParsedRows | ebay_purchases_list_only.py:253-263 | rows with distinct titles and the extracted shape pass the post-processing unchanged |
| Assembly.PostProcessOfParsedPage | ebay_purchases_list_only.py:247-263 | the post-processing of a single page's parse changes nothing |

## Left out

- Browser automation is not modelled: Selenium, the login wait, scrolling, paging, sleeping with jitter, configuration and argument parsing. These are I/O around the core.
- The page loop that concatenates the pages' rows (lines 240-245) is not modelled. `DropEmptyAppend` states what the filter does on such a concatenation.
- CSV and HTML output is not modelled. It is file I/O.
- HTML parsing by BeautifulSoup/lxml is not modelled. A page is given as its tree of nodes. Each node's `get_text(" ")` is an abstract string in the node. The re-parse of `str(cur)` at lines 59 and 106 is taken to yield the same text.
- Python truth values of nodes: a node's parent is modelled as either present or absent. The document root is the node without a parent.
- The required-column fill (lines 247-251) is not modelled. When there is at least one row, every row has all five fields and the fill adds nothing. When there are no rows, `pd.DataFrame([])` has no columns and the fill adds the five columns, but the table stays empty, as `PostProcess([])` is.
- Pandas values are plain strings. `astype(str)` turns a missing value (a float NaN) into "nan", so a missing currency is the string "nan". The string "NaN" is matched at line 259 only when a cell holds that literal text; the model treats it the same way.
- Labels.Fold: the case folding of `re.I` covers ASCII, Latin-1 and the first block of Latin Extended-A, except the capital I with dot (U+0130), which Fold leaves alone. That is enough for every label variant. Python's remaining folds are not modelled: the Kelvin sign, the long s, U+0130 and the dotless i matching 'k', 's' and 'i', and other scripts.
- Labels.IsAmountChar: `\d` is taken as the ASCII digits, not every Unicode decimal digit.
- Years.YearTokenAt: the `\d` of `20\d{2}` is taken as the ASCII digits, not every Unicode decimal digit.
- Labels.IsOrderChar: under `re.I`, `[0-9A-Za-z\-]` also matches the Kelvin sign (U+212A), the long s (U+017F), the capital I with dot (U+0130) and the dotless i (U+0131). The model takes only the ASCII characters of the class.
- Years.IsWordChar: `\w` is approximated by ASCII letters and digits, '_', and the alphanumeric characters of Latin-1 and Latin Extended-A.
