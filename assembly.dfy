/**
 * The post-processing of the collected rows in `main`
 * (ebay_purchases_list_only.py:247-263): drop rows with neither a title
 * nor a total, fill a missing currency from the total, and drop exact
 * duplicate rows, keeping the first of each.
 */
module Assembly {
  import opened Labels
  import opened Indices
  import opened Extraction

  // ---------------------------------------------------------------------
  // Dropping empty rows (line 253)
  // ---------------------------------------------------------------------

  /** A row survives line 253 when its title or its total is non-empty. */
  predicate HasTitleOrTotal(r: Record) {
    |r.itemTitle| > 0 || |r.orderTotal| > 0
  }

  /** The rows that have a title or a total, in their original order. */
  function DropEmpty(rows: seq<Record>): (kept: seq<Record>)
    ensures |kept| <= |rows|
    ensures forall r :: r in kept <==> r in rows && HasTitleOrTotal(r)
  {
    if rows == [] then []
    else
      var init, last := rows[..|rows| - 1], rows[|rows| - 1];
      assert rows == init + [last];
      DropEmpty(init) + (if HasTitleOrTotal(last) then [last] else [])
  }

  /** Filtering a concatenation filters each part: the rows of one page
      are kept or dropped regardless of the other pages. */
  lemma {:induction false} DropEmptyAppend(a: seq<Record>, b: seq<Record>)
    ensures DropEmpty(a + b) == DropEmpty(a) + DropEmpty(b)
    decreases |b|
  {
    if b != [] {
      var init, last := b[..|b| - 1], b[|b| - 1];
      assert (a + b)[..|a + b| - 1] == a + init;
      assert (a + b)[|a + b| - 1] == last;
      DropEmptyAppend(a, init);
      var tail := if HasTitleOrTotal(last) then [last] else [];
      assert DropEmpty(a + b) == (DropEmpty(a) + DropEmpty(init)) + tail;
      assert DropEmpty(b) == DropEmpty(init) + tail;
      assert (DropEmpty(a) + DropEmpty(init)) + tail == DropEmpty(a) + (DropEmpty(init) + tail);
    } else {
      assert a + b == a;
    }
  }

  /** Rows that all have a title or a total are kept unchanged. */
  lemma {:induction false} DropEmptyKeepsFull(rows: seq<Record>)
    requires forall k :: 0 <= k < |rows| ==> HasTitleOrTotal(rows[k])
    ensures DropEmpty(rows) == rows
  {
    if rows != [] {
      var init := rows[..|rows| - 1];
      DropEmptyKeepsFull(init);
      assert init + [rows[|rows| - 1]] == rows;
    }
  }

  // ---------------------------------------------------------------------
  // Back-filling the currency (lines 255-261)
  // ---------------------------------------------------------------------

  /** The currency cell counts as missing (line 258). */
  predicate IsMissingCurrency(c: string) {
    c == "" || c == "nan" || c == "NaN"
  }

  /** A missing currency is replaced by `sym_from_total(order_total)`;
      every other field, and a currency that is present, stay as they are. */
  function BackFillCurrency(r: Record): (filled: Record)
    ensures filled.(currency := r.currency) == r
    ensures !IsMissingCurrency(r.currency) ==> filled == r
    ensures IsMissingCurrency(r.currency) ==>
      filled.currency == "" || (|filled.currency| == 1 && IsCurrencySymbol(filled.currency[0]))
    ensures IsMissingCurrency(r.currency) ==> filled.currency == MoneySymbol(r.orderTotal)
  {
    if IsMissingCurrency(r.currency) then r.(currency := MoneySymbol(r.orderTotal)) else r
  }

  /** A missing currency becomes "" exactly when `MONEY_RE` matches nowhere
      in the total, and otherwise the symbol of its leftmost match. */
  lemma BackFillFromLeftmostMatch(r: Record)
    requires IsMissingCurrency(r.currency)
    ensures var v := r.orderTotal;
      BackFillCurrency(r).currency == "" <==> forall q :: 0 <= q <= |v| ==> !MoneyAt(v, q)
    ensures var v := r.orderTotal;
      BackFillCurrency(r).currency != "" ==>
        exists q :: 0 <= q < |v| && MoneyAt(v, q) && BackFillCurrency(r).currency == [v[q]] &&
                    forall q' :: 0 <= q' < q ==> !MoneyAt(v, q')
  {
  }

  /** A total without a money amount leaves a missing currency empty. */
  lemma BackFillWithoutMoney()
    ensures BackFillCurrency(Record("", "Item", "abc", "nan", "")).currency == ""
  {
    var v := "abc";
    forall q | 0 <= q <= |v| ensures !MoneyAt(v, q) {
      if q < |v| {
        assert v[q] in "abc";
      }
    }
    BackFillFromLeftmostMatch(Record("", "Item", "abc", "nan", ""));
  }

  /** A missing currency next to a money amount becomes the amount's own
      symbol. */
  lemma BackFillFromTotal(r: Record)
    requires IsMissingCurrency(r.currency) && IsMoney(r.orderTotal)
    ensures BackFillCurrency(r).currency == [r.orderTotal[0]]
  {
  }

  /** Back-filling twice is back-filling once. */
  lemma BackFillIdempotent(r: Record)
    ensures BackFillCurrency(BackFillCurrency(r)) == BackFillCurrency(r)
  {
  }

  /** A record as parsing produces it already has the currency of its
      total, so back-filling leaves it alone. */
  lemma BackFillOfParsed(r: Record)
    requires WellFormedRecord(r)
    ensures BackFillCurrency(r) == r
  {
  }

  /** Back-fill every row. */
  function BackFillAll(rows: seq<Record>): (filled: seq<Record>)
    ensures |filled| == |rows|
    ensures forall k :: 0 <= k < |rows| ==> filled[k] == BackFillCurrency(rows[k])
  {
    seq(|rows|, k requires 0 <= k < |rows| => BackFillCurrency(rows[k]))
  }

  // ---------------------------------------------------------------------
  // drop_duplicates (line 263)
  // ---------------------------------------------------------------------

  predicate NoDuplicates<T(==, !new)>(s: seq<T>) {
    forall i, j :: 0 <= i < j < |s| ==> s[i] != s[j]
  }

  /** The first `n` elements of `s` with every repeat dropped: the scan
      keeps an element the first time its value appears. */
  function DedupUpTo<T(==)>(s: seq<T>, n: nat): seq<T>
    requires n <= |s|
  {
    if n == 0 then []
    else DedupUpTo(s, n - 1) + (if s[n - 1] in s[..n - 1] then [] else [s[n - 1]])
  }

  /** `drop_duplicates()` with its default `keep="first"`. */
  function Dedup<T(==)>(s: seq<T>): seq<T> {
    DedupUpTo(s, |s|)
  }

  /** The scan of a prefix keeps every element of the prefix, adds none,
      and leaves no duplicates. */
  lemma {:induction false} DedupUpToContents<T(!new)>(s: seq<T>, n: nat)
    requires n <= |s|
    ensures forall x :: x in DedupUpTo(s, n) <==> x in s[..n]
    ensures NoDuplicates(DedupUpTo(s, n))
  {
    if n > 0 {
      DedupUpToContents(s, n - 1);
      assert s[..n] == s[..n - 1] + [s[n - 1]];
      var d := DedupUpTo(s, n - 1);
      if s[n - 1] !in s[..n - 1] {
        var e := d + [s[n - 1]];
        forall i, j | 0 <= i < j < |e| ensures e[i] != e[j] {
          if j == |d| {
            assert e[i] == d[i] && d[i] in d;
          }
        }
      }
    }
  }

  /** `Dedup` keeps every element of its input, adds none, and leaves no
      duplicates. */
  lemma DedupContents<T(!new)>(s: seq<T>)
    ensures forall x :: x in Dedup(s) <==> x in s
    ensures NoDuplicates(Dedup(s))
  {
    DedupUpToContents(s, |s|);
    assert s[..|s|] == s;
  }

  /** Flags the positions that hold the first occurrence of their element. */
  function FirstOccurrence<T(==)>(s: seq<T>): (flags: seq<bool>)
    ensures |flags| == |s|
  {
    seq(|s|, i requires 0 <= i < |s| => s[i] !in s[..i])
  }

  /** Scanning one more element appends it exactly when it is a first
      occurrence. */
  lemma DedupUpToStep<T(!new)>(s: seq<T>, n: nat)
    requires n < |s|
    ensures DedupUpTo(s, n + 1) ==
            DedupUpTo(s, n) + (if FirstOccurrence(s)[n] then [s[n]] else [])
  {
    assert FirstOccurrence(s)[n] == (s[n] !in s[..n]);
  }

  /** The elements at the first-occurrence positions below `n`, in order. */
  function FirstOccurrences<T(==)>(s: seq<T>, n: nat): seq<T>
    requires n <= |s|
  {
    Pick(s, IndicesWhere(FirstOccurrence(s), n))
  }

  /** Looking at one more position appends its element exactly when it is
      a first occurrence. */
  lemma FirstOccurrencesStep<T(!new)>(s: seq<T>, n: nat)
    requires n < |s|
    ensures FirstOccurrences(s, n + 1) ==
            FirstOccurrences(s, n) + (if FirstOccurrence(s)[n] then [s[n]] else [])
  {
    PickWhereStep(s, FirstOccurrence(s), n);
  }

  /** The scan of the first `n` elements is the elements at the
      first-occurrence positions below `n`, in order. */
  lemma {:induction false} DedupPrefix<T(!new)>(s: seq<T>, n: nat)
    requires n <= |s|
    ensures DedupUpTo(s, n) == FirstOccurrences(s, n)
  {
    if n == 0 {
      assert IndicesWhere(FirstOccurrence(s), 0) == [];
    } else {
      var tail := if FirstOccurrence(s)[n - 1] then [s[n - 1]] else [];
      calc {
        DedupUpTo(s, n);
        { DedupUpToStep(s, n - 1); }
        DedupUpTo(s, n - 1) + tail;
        { DedupPrefix(s, n - 1); }
        FirstOccurrences(s, n - 1) + tail;
        { FirstOccurrencesStep(s, n - 1); }
        FirstOccurrences(s, n);
      }
    }
  }

  /** `Dedup` keeps exactly the first occurrences, in their original order. */
  lemma DedupKeepsFirstOccurrences<T(!new)>(s: seq<T>)
    ensures Dedup(s) == Pick(s, IndicesWhere(FirstOccurrence(s), |s|))
  {
    DedupPrefix(s, |s|);
  }

  /** Without duplicates, the scan of a prefix is the prefix itself. */
  lemma {:induction false} DedupUpToOfDistinct<T(!new)>(s: seq<T>, n: nat)
    requires NoDuplicates(s) && n <= |s|
    ensures DedupUpTo(s, n) == s[..n]
  {
    if n > 0 {
      DedupUpToOfDistinct(s, n - 1);
      assert s[n - 1] !in s[..n - 1] by {
        forall i | 0 <= i < n - 1 ensures s[i] != s[n - 1] {
          assert i < n - 1;
        }
      }
      assert s[..n] == s[..n - 1] + [s[n - 1]];
    }
  }

  /** A sequence without duplicates is its own deduplication; in particular
      `Dedup` is idempotent. */
  lemma DedupOfDistinct<T(!new)>(s: seq<T>)
    requires NoDuplicates(s)
    ensures Dedup(s) == s
  {
    DedupUpToOfDistinct(s, |s|);
    assert s[..|s|] == s;
  }

  // ---------------------------------------------------------------------
  // The whole post-processing
  // ---------------------------------------------------------------------

  /** Lines 253-263 in order: filter, back-fill, deduplicate. */
  function PostProcess(rows: seq<Record>): seq<Record> {
    Dedup(BackFillAll(DropEmpty(rows)))
  }

  /** The output has no duplicate rows, and its rows are exactly the
      back-filled rows that have a title or a total. */
  lemma PostProcessContents(rows: seq<Record>)
    ensures NoDuplicates(PostProcess(rows))
    ensures forall x :: x in PostProcess(rows) <==>
      exists r :: r in rows && HasTitleOrTotal(r) && x == BackFillCurrency(r)
  {
    var kept := DropEmpty(rows);
    var filled := BackFillAll(kept);
    DedupContents(filled);
    forall x ensures x in filled <==> exists r :: r in rows && HasTitleOrTotal(r) && x == BackFillCurrency(r) {
      if x in filled {
        var k :| 0 <= k < |filled| && filled[k] == x;
        assert kept[k] in kept;
      }
      if exists r :: r in rows && HasTitleOrTotal(r) && x == BackFillCurrency(r) {
        var r :| r in rows && HasTitleOrTotal(r) && x == BackFillCurrency(r);
        var k :| 0 <= k < |kept| && kept[k] == r;
        assert filled[k] == x;
      }
    }
  }

  /** Rows as one page's parse produces them pass post-processing
      unchanged: they all have a title, their currency already follows the
      total, and their titles are distinct. */
  lemma PostProcessOfParsedRows(rows: seq<Record>)
    requires TitlesDistinct(rows)
    requires forall k :: 0 <= k < |rows| ==> WellFormedRecord(rows[k])
    ensures PostProcess(rows) == rows
  {
    DropEmptyKeepsFull(rows);
    forall k | 0 <= k < |rows| ensures BackFillCurrency(rows[k]) == rows[k] {
      BackFillOfParsed(rows[k]);
    }
    assert BackFillAll(rows) == rows;
    DedupOfDistinct(rows);
  }

  /** Post-processing a single parsed page changes nothing. */
  lemma PostProcessOfParsedPage(doc: Document.Page, year: int)
    requires Document.WellFormed(doc)
    ensures PostProcess(Parsed(doc, year)) == Parsed(doc, year)
  {
    ParsedProperties(doc, year);
    PostProcessOfParsedRows(Parsed(doc, year));
  }
}
