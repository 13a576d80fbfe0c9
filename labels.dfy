/**
 * Locale-tolerant label matching of `extract_meta_from_text`
 * (ebay_purchases_list_only.py:33-36, 61-78).  Each of the three searches
 * `LABEL \s* : \s* VALUE` is modelled as a hand-written scanner that tries
 * start positions left to right, and at each position the label variants
 * in table order, exactly as `re.search` does.
 */
module Labels {
  import opened Wrappers
  import opened Text

  // ---------------------------------------------------------------------
  // Character classes
  // ---------------------------------------------------------------------

  /** The currency symbols of `[£$€]`. */
  predicate IsCurrencySymbol(c: char) {
    c == '\U{A3}' || c == '$' || c == '\U{20AC}'
  }

  /** `[\d\.,]`, with `\d` taken as the ASCII digits. */
  predicate IsAmountChar(c: char) {
    '0' <= c <= '9' || c == '.' || c == ','
  }

  /** `[0-9A-Za-z\-]`. */
  predicate IsOrderChar(c: char) {
    '0' <= c <= '9' || 'A' <= c <= 'Z' || 'a' <= c <= 'z' || c == '-'
  }

  /** The characters excluded from the seller group `[^\|·\n\r]`. */
  predicate IsSellerStop(c: char) {
    c == '|' || c == '\U{B7}' || c == '\n' || c == '\r'
  }

  /** The field separators that end a seller name: `|` and `·`. */
  predicate IsFieldSeparator(c: char) {
    c == '|' || c == '\U{B7}'
  }

  /** Simple case folding for `re.I`: ASCII, Latin-1 and the first block
      of Latin Extended-A (which holds the Czech capital C with caron),
      leaving out the capital I with dot, which Python folds to 'i'. */
  function Fold(c: char): char {
    if 'A' <= c <= 'Z' then (c as int + 32) as char
    else if '\U{C0}' <= c <= '\U{DE}' && c != '\U{D7}' then (c as int + 32) as char
    else if '\U{100}' <= c <= '\U{137}' && c != '\U{130}' && c as int % 2 == 0 then (c as int + 1) as char
    else c
  }

  // ---------------------------------------------------------------------
  // The label table (ebay_purchases_list_only.py:33-35)
  // ---------------------------------------------------------------------

  datatype Concept = OrderTotal | OrderNumber | SoldBy

  /** The label variants of each search, in the order of the alternation
      (`Order total|Celkem objednávky|...`). */
  function Variants(k: Concept): seq<string> {
    match k
    case OrderTotal => [
      "Order total", "Celkem objedn\U{E1}vky", "Gesamtsumme",
      "Total del pedido", "Total de la commande", "Totale ordine"]
    case OrderNumber => [
      "Order number", "\U{10C}\U{ED}slo objedn\U{E1}vky", "Bestellnummer",
      "N\U{FA}mero de pedido", "Num\U{E9}ro de commande", "Numero ordine"]
    case SoldBy => [
      "Sold by", "Prod\U{E1}v\U{E1}", "Verkauft von", "Vendido por", "Vendu par"]
  }

  /** The label occurs at position `p` of `t`, ignoring case. */
  predicate LabelAt(t: string, p: nat, variant: string) {
    p + |variant| <= |t| && forall i :: 0 <= i < |variant| ==> Fold(t[p + i]) == Fold(variant[i])
  }

  // ---------------------------------------------------------------------
  // Greedy runs
  // ---------------------------------------------------------------------

  /** The end of the maximal whitespace run that starts at `i` (a
      greedy `\s*`). */
  function SkipSpaces(t: string, i: nat): (j: nat)
    requires i <= |t|
    ensures i <= j <= |t|
    ensures forall k :: i <= k < j ==> IsSpace(t[k])
    ensures j < |t| ==> !IsSpace(t[j])
    decreases |t| - i
  {
    if i < |t| && IsSpace(t[i]) then SkipSpaces(t, i + 1) else i
  }

  /** The end of the maximal run of `[\d\.,]` that starts at `i`. */
  function SkipAmount(t: string, i: nat): (j: nat)
    requires i <= |t|
    ensures i <= j <= |t|
    ensures forall k :: i <= k < j ==> IsAmountChar(t[k])
    ensures j < |t| ==> !IsAmountChar(t[j])
    decreases |t| - i
  {
    if i < |t| && IsAmountChar(t[i]) then SkipAmount(t, i + 1) else i
  }

  /** The end of the maximal run of `[0-9A-Za-z\-]` that starts at `i`. */
  function SkipOrderChars(t: string, i: nat): (j: nat)
    requires i <= |t|
    ensures i <= j <= |t|
    ensures forall k :: i <= k < j ==> IsOrderChar(t[k])
    ensures j < |t| ==> !IsOrderChar(t[j])
    decreases |t| - i
  {
    if i < |t| && IsOrderChar(t[i]) then SkipOrderChars(t, i + 1) else i
  }

  // ---------------------------------------------------------------------
  // MONEY_RE = ([£$€])\s*([\d\.,]+)  (line 36)
  // ---------------------------------------------------------------------

  /** `MONEY_RE` matches at position `p` of `v`. */
  predicate MoneyAt(v: string, p: nat) {
    p < |v| && IsCurrencySymbol(v[p]) &&
    var b := SkipSpaces(v, p + 1);
    b < |v| && IsAmountChar(v[b])
  }

  /** The end of the `MONEY_RE` match at `p` (the amount run is greedy). */
  function MoneyEnd(v: string, p: nat): (e: nat)
    requires MoneyAt(v, p)
    ensures p + 1 < e <= |v|
    ensures forall i :: p < i < e ==> IsSpace(v[i]) || IsAmountChar(v[i])
    ensures IsAmountChar(v[e - 1])
    ensures forall i :: p < i && i + 1 < e ==> !AmountBreakAt(v, i)
    ensures e < |v| ==> !IsAmountChar(v[e])
  {
    var b := SkipSpaces(v, p + 1);
    var e := SkipAmount(v, b);
    assert forall i :: p < i < e && IsAmountChar(v[i]) ==> b <= i by {
      forall i | p < i < b ensures !IsAmountChar(v[i]) {
        assert IsSpace(v[i]);
      }
    }
    e
  }

  /** An amount character at `i` of `v` is followed by a non-amount one. */
  predicate AmountBreakAt(v: string, i: int) {
    0 <= i && i + 1 < |v| && IsAmountChar(v[i]) && !IsAmountChar(v[i + 1])
  }

  /** A total as the search returns it: a currency symbol, whitespace, and
      a non-empty run of digits, '.' and ','; nothing else. */
  predicate IsMoney(v: string) {
    && |v| >= 2
    && IsCurrencySymbol(v[0])
    && IsAmountChar(v[|v| - 1])
    && (forall i :: 1 <= i < |v| ==> IsSpace(v[i]) || IsAmountChar(v[i]))
    && (forall i :: 1 <= i < |v| ==> !AmountBreakAt(v, i))
  }

  /** `MONEY_RE.search(v)` from position `p` on, returning group 1. */
  function MoneySymbolFrom(v: string, p: nat): (r: string)
    requires p <= |v|
    ensures r == "" <==> forall q :: p <= q <= |v| ==> !MoneyAt(v, q)
    ensures r != "" ==> exists q :: p <= q < |v| && MoneyAt(v, q) && r == [v[q]] &&
                                    forall q' :: p <= q' < q ==> !MoneyAt(v, q')
    decreases |v| - p
  {
    if MoneyAt(v, p) then [v[p]]
    else if p == |v| then ""
    else MoneySymbolFrom(v, p + 1)
  }

  /** `sym_from_total` (lines 255-257) and the currency lookup of line 67:
      the symbol of the leftmost money amount in `v`, or "". */
  function MoneySymbol(v: string): (r: string)
    ensures r == "" || (|r| == 1 && IsCurrencySymbol(r[0]))
  {
    MoneySymbolFrom(v, 0)
  }

  /** A well-formed total starts with its own currency symbol. */
  lemma MoneySymbolOfMoney(v: string)
    requires IsMoney(v)
    ensures MoneyAt(v, 0)
    ensures MoneySymbol(v) == [v[0]]
  {
  }

  // ---------------------------------------------------------------------
  // The value grammars after `\s*:`
  // ---------------------------------------------------------------------

  /** `\s*([£$€]\s*[\d\.,]+)`: the total value group.  It is found exactly
      when a money amount starts right after the whitespace, and it is the
      text from there to the end of a maximal amount run. */
  function TotalValue(t: string, c: nat): (r: Option<string>)
    requires c <= |t|
    ensures r.Some? <==> MoneyAt(t, SkipSpaces(t, c))
    ensures r.Some? ==> IsMoney(r.value)
  {
    var a := SkipSpaces(t, c);
    if MoneyAt(t, a) then
      var e := MoneyEnd(t, a);
      var v := t[a..e];
      assert forall i :: 0 <= i < |v| ==> v[i] == t[a + i];
      assert forall i :: 1 <= i < |v| ==> !AmountBreakAt(v, i) by {
        forall i | 1 <= i < |v| ensures !AmountBreakAt(v, i) {
          if i + 1 < |v| {
            assert !AmountBreakAt(t, a + i);
          }
        }
      }
      Some(v)
    else None
  }

  /** A found total is the text right after the whitespace, up to the end
      of a maximal amount run. */
  lemma TotalValueExtent(t: string, c: nat)
    requires c <= |t| && TotalValue(t, c).Some?
    ensures var v, a := TotalValue(t, c).value, SkipSpaces(t, c);
      a + |v| <= |t| && v == t[a..a + |v|] && (a + |v| == |t| || !IsAmountChar(t[a + |v|]))
  {
  }

  /** A non-empty token over letters, digits and '-'. */
  predicate IsOrderNumber(v: string) {
    |v| > 0 && forall i :: 0 <= i < |v| ==> IsOrderChar(v[i])
  }

  /** `\s*([0-9A-Za-z\-]+)`: the order number group.  It is found exactly
      when an order character follows the whitespace, and it is the maximal
      run of order characters from there. */
  function OrderNumberValue(t: string, c: nat): (r: Option<string>)
    requires c <= |t|
    ensures r.None? <==> SkipSpaces(t, c) == |t| || !IsOrderChar(t[SkipSpaces(t, c)])
    ensures r.Some? ==> IsOrderNumber(r.value)
  {
    var a := SkipSpaces(t, c);
    var e := SkipOrderChars(t, a);
    if e > a then Some(t[a..e]) else None
  }

  /** A found order number is the maximal run of order characters right
      after the whitespace. */
  lemma OrderNumberValueExtent(t: string, c: nat)
    requires c <= |t| && OrderNumberValue(t, c).Some?
    ensures var v, a := OrderNumberValue(t, c).value, SkipSpaces(t, c);
      a + |v| <= |t| && v == t[a..a + |v|] && (a + |v| == |t| || !IsOrderChar(t[a + |v|]))
  {
  }

  /** The rest of `t` from `e` on matches `\s*(?:\||·|$)`.  (Without
      MULTILINE, `$` also matches before a final newline, but that newline
      is whitespace, so the greedy `\s*` reaches the end anyway.) */
  predicate SellerEndsAt(t: string, e: nat)
    requires e <= |t|
  {
    var k := SkipSpaces(t, e);
    k == |t| || IsFieldSeparator(t[k])
  }

  /** The lazy group `[^\|·\n\r]+?` already holds `t[..e]` (from its start):
      the first end at or after `e` after which the text terminates. */
  function LazyGroupEnd(t: string, e: nat): (r: Option<nat>)
    requires e <= |t|
    ensures r.Some? ==> e <= r.value <= |t| && SellerEndsAt(t, r.value)
    ensures r.Some? ==> forall i :: e <= i < r.value ==> !IsSellerStop(t[i]) && !SellerEndsAt(t, i)
    ensures r.None? ==>
      exists i :: e <= i < |t| && IsSellerStop(t[i]) && forall j :: e <= j <= i ==> !SellerEndsAt(t, j)
    decreases |t| - e
  {
    if SellerEndsAt(t, e) then Some(e)
    else if e < |t| && !IsSellerStop(t[e]) then LazyGroupEnd(t, e + 1)
    else None
  }

  /** The lazy group `[^\|·\n\r]+?` with its start at `s`: the end of the
      shortest group after which the text terminates, if one is reached
      before a stop character. */
  function GroupEnd(t: string, s: nat): (r: Option<nat>)
    requires s <= |t|
    ensures r.Some? ==> s < r.value <= |t| && SellerEndsAt(t, r.value)
    ensures r.Some? ==> forall i :: s <= i < r.value ==> !IsSellerStop(t[i])
    ensures r.Some? ==> forall i :: s < i < r.value ==> !SellerEndsAt(t, i)
    ensures r.None? ==>
      (s == |t| || IsSellerStop(t[s]) ||
       exists i :: s < i < |t| && IsSellerStop(t[i]) && forall j :: s < j <= i ==> !SellerEndsAt(t, j))
  {
    if s < |t| && !IsSellerStop(t[s]) then LazyGroupEnd(t, s + 1) else None
  }

  /** The seller group when it starts at `s`: `t[s..e]` for the end `e`
      that `GroupEnd` finds. */
  function GroupAt(t: string, s: nat): (r: Option<string>)
    ensures r.Some? <==> s <= |t| && GroupEnd(t, s).Some?
    ensures r.Some? ==> s <= |t| && GroupEnd(t, s).Some? && r.value == t[s..GroupEnd(t, s).value]
    ensures r.Some? ==> |r.value| > 0 && forall i :: 0 <= i < |r.value| ==> !IsSellerStop(r.value[i])
  {
    if s > |t| then None
    else
      match GroupEnd(t, s)
      case Some(e) =>
        var v := t[s..e];
        assert forall i :: 0 <= i < |v| ==> v[i] == t[s + i];
        Some(v)
      case None => None
  }

  /** The backtracking of a greedy `\s*` in front of a group: the result
      at the latest position from `a` down to `c` where `at` yields one. */
  function Latest<T>(at: nat -> Option<T>, c: nat, a: nat): (r: Option<T>)
    requires c <= a
    decreases a
  {
    var here := at(a);
    if here.Some? then here
    else if a == c then None
    else Latest(at, c, a - 1)
  }

  /** The backtracking fails exactly when no position yields a result, and
      otherwise returns the result of the latest position that does. */
  lemma {:induction false} LatestIsLatest<T>(at: nat -> Option<T>, c: nat, a: nat)
    requires c <= a
    ensures Latest(at, c, a).None? <==> forall s :: c <= s <= a ==> at(s).None?
    ensures Latest(at, c, a).Some? ==>
      exists s :: c <= s <= a && at(s) == Latest(at, c, a) &&
                  forall s' :: s < s' <= a ==> at(s').None?
    decreases a
  {
    if at(a).None? && a > c {
      LatestIsLatest(at, c, a - 1);
    }
  }

  /** `\s*([^\|·\n\r]+?)\s*(?:\||·|$)` after the colon at `c`: the greedy
      `\s*` first leaves the group to start at `a`; when that fails it
      gives back one whitespace character at a time, down to `c`. */
  function SellerGroup(t: string, c: nat, a: nat): (r: Option<string>)
    requires c <= a <= |t|
    ensures r.Some? ==> |r.value| > 0 && forall i :: 0 <= i < |r.value| ==> !IsSellerStop(r.value[i])
  {
    var at := (s: nat) => GroupAt(t, s);
    LatestIsLatest(at, c, a);
    Latest(at, c, a)
  }

  /** The seller group fails exactly when no start in `c..a` succeeds, and
      otherwise is the group of the latest start that does. */
  lemma SellerGroupIsLatestStart(t: string, c: nat, a: nat)
    requires c <= a <= |t|
    ensures SellerGroup(t, c, a).None? <==> forall s :: c <= s <= a ==> GroupAt(t, s).None?
    ensures SellerGroup(t, c, a).Some? ==>
      exists s :: c <= s <= a && GroupAt(t, s) == SellerGroup(t, c, a) &&
                  forall s' :: s < s' <= a ==> GroupAt(t, s').None?
  {
    var at := (s: nat) => GroupAt(t, s);
    assert forall s: nat :: at(s) == GroupAt(t, s);
    assert SellerGroup(t, c, a) == Latest(at, c, a);
    LatestIsLatest(at, c, a);
  }

  /** A non-empty value group of concept `k` has the shape its regex demands. */
  predicate ValueShape(k: Concept, v: string) {
    match k
    case OrderTotal => IsMoney(v)
    case OrderNumber => IsOrderNumber(v)
    case SoldBy => |v| > 0 && forall i :: 0 <= i < |v| ==> !IsSellerStop(v[i])
  }

  function ValueAfterColon(k: Concept, t: string, c: nat): (r: Option<string>)
    requires c <= |t|
    ensures r.Some? ==> ValueShape(k, r.value)
  {
    match k
    case OrderTotal => TotalValue(t, c)
    case OrderNumber => OrderNumberValue(t, c)
    case SoldBy => SellerGroup(t, c, SkipSpaces(t, c))
  }

  /** `\s*:` after a label ending at `q`: the position just past the colon. */
  function ColonEnd(t: string, q: nat): (r: Option<nat>)
    requires q <= |t|
    ensures r.Some? ==> q < r.value <= |t| && t[r.value - 1] == ':'
    ensures r.Some? ==> forall i :: q <= i < r.value - 1 ==> IsSpace(t[i])
    ensures r.None? ==>
      forall j :: q <= j < |t| && t[j] == ':' ==> exists i :: q <= i < j && !IsSpace(t[i])
  {
    var j := SkipSpaces(t, q);
    if j < |t| && t[j] == ':' then Some(j + 1) else None
  }

  /** One label variant, `\s*:` and the value of concept `k`, tried at
      position `p`: it fails exactly when the label is not there, no colon
      follows it, or no value follows the colon. */
  function VariantAt(k: Concept, t: string, p: nat, variant: string): (r: Option<string>)
    ensures r.Some? ==> ValueShape(k, r.value) && LabelAt(t, p, variant)
  {
    if LabelAt(t, p, variant) then
      match ColonEnd(t, p + |variant|)
      case Some(c) => ValueAfterColon(k, t, c)
      case None => None
    else None
  }

  /** An alternation: the result of the first of `xs`, in order, for which
      `try` yields one. */
  function FirstOf<X, T>(try: X -> Option<T>, xs: seq<X>): (r: Option<T>)
    decreases |xs|
  {
    if xs == [] then None
    else
      var here := try(xs[0]);
      if here.Some? then here else FirstOf(try, xs[1..])
  }

  /** The alternation fails exactly when every alternative fails, and
      otherwise is the result of the first alternative that succeeds. */
  lemma {:induction false} FirstOfIsFirst<X, T>(try: X -> Option<T>, xs: seq<X>)
    ensures FirstOf(try, xs).None? <==> forall i :: 0 <= i < |xs| ==> try(xs[i]).None?
    ensures FirstOf(try, xs).Some? ==>
      exists i :: 0 <= i < |xs| && FirstOf(try, xs) == try(xs[i]) &&
                  forall i' :: 0 <= i' < i ==> try(xs[i']).None?
    decreases |xs|
  {
    if xs != [] && try(xs[0]).None? {
      var rest := xs[1..];
      FirstOfIsFirst(try, rest);
      assert forall i :: 1 <= i < |xs| ==> xs[i] == rest[i - 1];
      if FirstOf(try, rest).Some? {
        var j :| 0 <= j < |rest| && FirstOf(try, rest) == try(rest[j]) &&
                 forall i' :: 0 <= i' < j ==> try(rest[i']).None?;
        assert xs[j + 1] == rest[j];
        forall i' | 0 <= i' < j + 1 ensures try(xs[i']).None? {
          if i' > 0 {
            assert xs[i'] == rest[i' - 1];
          }
        }
      }
    }
  }

  /** The alternation of `labels` followed by `\s*:` and the value, tried at
      position `p`: the first variant in table order that succeeds there. */
  function MatchLabelsAt(k: Concept, t: string, p: nat, labels: seq<string>): (r: Option<string>)
    ensures r.Some? ==> ValueShape(k, r.value)
  {
    var try := (v: string) => VariantAt(k, t, p, v);
    FirstOfIsFirst(try, labels);
    FirstOf(try, labels)
  }

  /** The alternation fails exactly when every variant fails, and otherwise
      is the result of the first variant in table order that succeeds. */
  lemma MatchLabelsAtIsFirstVariant(k: Concept, t: string, p: nat, labels: seq<string>)
    ensures MatchLabelsAt(k, t, p, labels).None? <==>
      forall i :: 0 <= i < |labels| ==> VariantAt(k, t, p, labels[i]).None?
    ensures MatchLabelsAt(k, t, p, labels).Some? ==>
      exists i :: 0 <= i < |labels| && MatchLabelsAt(k, t, p, labels) == VariantAt(k, t, p, labels[i]) &&
                  forall i' :: 0 <= i' < i ==> VariantAt(k, t, p, labels[i']).None?
  {
    var try := (v: string) => VariantAt(k, t, p, v);
    assert forall v: string :: try(v) == VariantAt(k, t, p, v);
    assert MatchLabelsAt(k, t, p, labels) == FirstOf(try, labels);
    FirstOfIsFirst(try, labels);
  }

  /** A variant fails exactly when the label is not there, no `\s*:`
      follows it, or no value follows the colon; otherwise its result is the
      value after the colon. */
  lemma VariantAtFails(k: Concept, t: string, p: nat, variant: string)
    ensures VariantAt(k, t, p, variant).None? <==>
      !LabelAt(t, p, variant) || ColonEnd(t, p + |variant|).None? ||
      ValueAfterColon(k, t, ColonEnd(t, p + |variant|).value).None?
    ensures VariantAt(k, t, p, variant).Some? ==>
      VariantAt(k, t, p, variant) == ValueAfterColon(k, t, ColonEnd(t, p + |variant|).value)
  {
  }

  /** The whole pattern of concept `k` matches at position `p`. */
  function MatchAt(k: Concept, t: string, p: nat): (r: Option<string>)
    ensures r.Some? ==> ValueShape(k, r.value)
  {
    MatchLabelsAt(k, t, p, Variants(k))
  }

  /** The regex engine's scan: the result at the first position from `p`
      up to `n` where `at` yields one. */
  function Leftmost<T>(at: nat -> Option<T>, p: nat, n: nat): (r: Option<T>)
    requires p <= n
    decreases n - p
  {
    var here := at(p);
    if here.Some? then here
    else if p == n then None
    else Leftmost(at, p + 1, n)
  }

  /** The scan fails exactly when no position yields a result, and
      otherwise returns the result of the leftmost position that does. */
  lemma {:induction false} LeftmostIsLeftmost<T>(at: nat -> Option<T>, p: nat, n: nat)
    requires p <= n
    ensures Leftmost(at, p, n).None? <==> forall q :: p <= q <= n ==> at(q).None?
    ensures Leftmost(at, p, n).Some? ==>
      exists q :: p <= q <= n && at(q) == Leftmost(at, p, n) &&
                  forall q' :: p <= q' < q ==> at(q').None?
    decreases n - p
  {
    if at(p).None? && p < n {
      LeftmostIsLeftmost(at, p + 1, n);
    }
  }

  /** `re.search(LABEL + r"\s*:\s*" + VALUE, txt, re.I)`, group 2: the match
      at the leftmost position of `t` (position |t| included). */
  function Search(k: Concept, t: string): (r: Option<string>)
    ensures r.Some? ==> ValueShape(k, r.value)
  {
    var at := (q: nat) => MatchAt(k, t, q);
    LeftmostIsLeftmost(at, 0, |t|);
    Leftmost(at, 0, |t|)
  }

  /** The search fails exactly when the pattern matches nowhere, and
      otherwise returns the match at the leftmost position. */
  lemma SearchIsLeftmost(k: Concept, t: string)
    ensures Search(k, t).None? <==> forall q :: 0 <= q <= |t| ==> MatchAt(k, t, q).None?
    ensures Search(k, t).Some? ==>
      exists q :: 0 <= q <= |t| && MatchAt(k, t, q) == Search(k, t) &&
                  forall q' :: 0 <= q' < q ==> MatchAt(k, t, q').None?
  {
    var at := (q: nat) => MatchAt(k, t, q);
    assert forall q: nat :: at(q) == MatchAt(k, t, q);
    assert Search(k, t) == Leftmost(at, 0, |t|);
    LeftmostIsLeftmost(at, 0, |t|);
  }

  // ---------------------------------------------------------------------
  // extract_meta_from_text (lines 61-78)
  // ---------------------------------------------------------------------

  datatype Meta = Meta(total: string, currency: string, orderNumber: string, seller: string)

  /** A seller name: normalised and free of field separators. */
  predicate IsSellerName(v: string) {
    IsClean(v) && forall i :: 0 <= i < |v| ==> !IsFieldSeparator(v[i])
  }

  /** What every extraction result satisfies: the total is "" or a money
      amount, the currency is "" exactly when the total is and otherwise is
      the total's first character, the order number is "" or a token, and
      the seller is a seller name. */
  predicate WellFormedMeta(m: Meta) {
    && (m.total == "" || IsMoney(m.total))
    && m.currency == (if m.total == "" then "" else [m.total[0]])
    && (m.orderNumber == "" || IsOrderNumber(m.orderNumber))
    && IsSellerName(m.seller)
  }

  /** A seller group, once normalised, is a seller name. */
  lemma SellerNameOfGroup(g: string)
    requires forall i :: 0 <= i < |g| ==> !IsSellerStop(g[i])
    ensures IsSellerName(Clean(g))
  {
    CleanIsNormal(g);
    CleanCharacters(g);
  }

  /** `extract_meta_from_text(txt)`: each field is found exactly when its
      search matches, and the result has the shape of `WellFormedMeta`. */
  function ExtractMeta(txt: string): (m: Meta)
    ensures WellFormedMeta(m)
    ensures m.total != "" <==> Search(OrderTotal, txt).Some?
    ensures m.orderNumber != "" <==> Search(OrderNumber, txt).Some?
    ensures Search(OrderTotal, txt).Some? ==> m.total == Search(OrderTotal, txt).value
    ensures Search(OrderNumber, txt).Some? ==> m.orderNumber == Search(OrderNumber, txt).value
    ensures Search(SoldBy, txt).Some? ==> m.seller == Clean(Search(SoldBy, txt).value)
    ensures Search(SoldBy, txt).None? ==> m.seller == ""
  {
    var t, o, g := Search(OrderTotal, txt), Search(OrderNumber, txt), Search(SoldBy, txt);
    var total := if t.Some? then t.value else "";
    var currency := if total != "" then MoneySymbol(total) else "";
    var orderNumber := if o.Some? then o.value else "";
    var seller := if g.Some? then Clean(g.value) else "";
    assert IsSellerName(seller) by {
      if g.Some? {
        SellerNameOfGroup(g.value);
      } else {
        assert IsClean("");
      }
    }
    assert total != "" ==> MoneySymbol(total) == [total[0]] by {
      if total != "" { MoneySymbolOfMoney(total); }
    }
    Meta(total, currency, orderNumber, seller)
  }
}
