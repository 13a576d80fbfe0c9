/**
 * `extract_meta_from_text` (ebay_purchases_list_only.py:61-78) worked
 * through on one order card's text: the three searches, each found at the
 * position of its English label, and the values they return.
 */
module SampleLine {
  import opened Wrappers
  import opened Text
  import opened Labels

  /** The text of an order card. */
  const Line := "Order total: \U{A3}23.99 | " + "Order number: 12-3456789-0 | " +
                "Sold by: Acme Traders \U{B7} 2024"

  /** The same text, cut at the positions the proofs look at:
      0 label, 11 colon, 13 symbol, 14 amount, 19 separator, 22 label,
      34 colon, 36 order number, 48 separator, 51 label, 58 colon, 60 and
      65 the seller's words, 72 separator, 75 year. */
  const Pieces := ("Order total" + ": " + "\U{A3}" + "23.99" + " | ") +
                  ("Order number" + ": " + "12-3456789-0" + " | ") +
                  ("Sold by" + ": " + "Acme" + " " + "Traders" + " \U{B7} " + "2024")

  lemma TotalChunk()
    ensures "Order total: \U{A3}23.99 | " == "Order total" + ": " + "\U{A3}" + "23.99" + " | "
  {
  }

  lemma NumberChunk()
    ensures "Order number: 12-3456789-0 | " == "Order number" + ": " + "12-3456789-0" + " | "
  {
  }

  lemma SellerChunk()
    ensures "Sold by: Acme Traders \U{B7} 2024" ==
            "Sold by" + ": " + "Acme" + " " + "Traders" + " \U{B7} " + "2024"
  {
  }

  lemma LineIsPieces()
    ensures Line == Pieces
  {
    TotalChunk();
    NumberChunk();
    SellerChunk();
  }

  // ---------------------------------------------------------------------
  // Label occurrences
  // ---------------------------------------------------------------------

  /** `v` is spelled out at `p`. */
  lemma LabelAtOf(t: string, p: nat, v: string)
    requires p + |v| <= |t| && forall i :: 0 <= i < |v| ==> t[p + i] == v[i]
    ensures LabelAt(t, p, v)
  {
  }

  /** `v` is not at `p` when its `j`-th letter differs there. */
  lemma NotLabelAt(t: string, p: nat, v: string, j: nat)
    requires j < |v| && p + j < |t| && Fold(t[p + j]) != Fold(v[j])
    ensures !LabelAt(t, p, v)
  {
  }

  /** The folded first letters of the variants of each concept. */
  function StartLetters(k: Concept): string {
    match k
    case OrderTotal => "ocgt"
    case OrderNumber => "o\U{10D}bn"
    case SoldBy => "spv"
  }

  /** A label can only start at a letter that starts one of its variants. */
  lemma LabelStarts(k: Concept, t: string, p: nat, v: string)
    requires v in Variants(k) && LabelAt(t, p, v)
    ensures p < |t| && Fold(t[p]) in StartLetters(k)
  {
    assert |v| > 0 && Fold(v[0]) in StartLetters(k);
    assert Fold(t[p + 0]) == Fold(v[0]);
  }

  /** No match at `p` when no variant's label is there. */
  lemma NoMatchAt(k: Concept, t: string, p: nat)
    requires forall v :: v in Variants(k) ==> !LabelAt(t, p, v)
    ensures MatchAt(k, t, p).None?
  {
    MatchLabelsAtIsFirstVariant(k, t, p, Variants(k));
  }

  /** No match at `p` when the letter there starts no variant. */
  lemma NoMatchAtLetter(k: Concept, t: string, p: nat)
    requires p < |t| && Fold(t[p]) !in StartLetters(k)
    ensures MatchAt(k, t, p).None?
  {
    forall v | v in Variants(k) ensures !LabelAt(t, p, v) {
      if LabelAt(t, p, v) {
        LabelStarts(k, t, p, v);
      }
    }
    NoMatchAt(k, t, p);
  }

  /** The search returns the match at `q` when nothing matches earlier. */
  lemma SearchAt(k: Concept, t: string, q: nat)
    requires q <= |t| && MatchAt(k, t, q).Some?
    requires forall q' :: 0 <= q' < q ==> MatchAt(k, t, q').None?
    ensures Search(k, t) == MatchAt(k, t, q)
  {
    SearchIsLeftmost(k, t);
  }

  // ---------------------------------------------------------------------
  // The total (line 64): found at position 0
  // ---------------------------------------------------------------------

  lemma TotalLabel()
    ensures LabelAt(Pieces, 0, "Order total")
  {
    LabelAtOf(Pieces, 0, "Order total");
  }

  lemma TotalColon()
    ensures ColonEnd(Pieces, 11) == Some(12)
  {
    assert Pieces[11] == ':';
    assert SkipSpaces(Pieces, 11) == 11;
  }

  lemma TotalRun()
    ensures SkipAmount(Pieces, 14) == 19
  {
    assert Pieces[19] == ' ';
    assert forall i :: 14 <= i < 19 ==> Pieces[i] in "23.99";
  }

  lemma TotalText()
    ensures Pieces[13..19] == "\U{A3}23.99"
  {
  }

  lemma TotalAmount()
    ensures TotalValue(Pieces, 12) == Some("\U{A3}23.99")
  {
    assert Pieces[12] == ' ' && Pieces[13] == '\U{A3}' && Pieces[14] == '2';
    assert SkipSpaces(Pieces, 13) == 13;
    assert SkipSpaces(Pieces, 14) == 14;
    TotalRun();
    TotalText();
  }

  lemma TotalMatch()
    ensures MatchAt(OrderTotal, Pieces, 0) == Some("\U{A3}23.99")
  {
    assert Variants(OrderTotal)[0] == "Order total";
    TotalLabel();
    TotalColon();
    TotalAmount();
    assert VariantAt(OrderTotal, Pieces, 0, "Order total") == Some("\U{A3}23.99");
    MatchLabelsAtIsFirstVariant(OrderTotal, Pieces, 0, Variants(OrderTotal));
  }

  lemma TotalFound()
    ensures Search(OrderTotal, Pieces) == Some("\U{A3}23.99")
  {
    TotalMatch();
    SearchAt(OrderTotal, Pieces, 0);
  }

  // ---------------------------------------------------------------------
  // The order number (line 70): found at position 22
  // ---------------------------------------------------------------------

  lemma NumberLabel()
    ensures LabelAt(Pieces, 22, "Order number")
  {
    LabelAtOf(Pieces, 22, "Order number");
  }

  lemma NumberColon()
    ensures ColonEnd(Pieces, 34) == Some(35)
  {
    assert Pieces[34] == ':';
    assert SkipSpaces(Pieces, 34) == 34;
  }

  lemma NumberRunTail()
    ensures SkipOrderChars(Pieces, 42) == 48
  {
    assert Pieces[48] == ' ';
    assert forall i :: 42 <= i < 48 ==> Pieces[i] in "56789-0";
  }

  lemma NumberRun()
    ensures SkipOrderChars(Pieces, 36) == 48
  {
    NumberRunTail();
    assert forall i :: 36 <= i < 42 ==> Pieces[i] in "12-345";
  }

  lemma NumberText()
    ensures Pieces[36..48] == "12-3456789-0"
  {
  }

  lemma NumberValue()
    ensures OrderNumberValue(Pieces, 35) == Some("12-3456789-0")
  {
    assert Pieces[35] == ' ' && Pieces[36] == '1';
    assert SkipSpaces(Pieces, 36) == 36;
    NumberRun();
    NumberText();
  }

  lemma NumberMatch()
    ensures MatchAt(OrderNumber, Pieces, 22) == Some("12-3456789-0")
  {
    assert Variants(OrderNumber)[0] == "Order number";
    NumberLabel();
    NumberColon();
    NumberValue();
    assert VariantAt(OrderNumber, Pieces, 22, "Order number") == Some("12-3456789-0");
    MatchLabelsAtIsFirstVariant(OrderNumber, Pieces, 22, Variants(OrderNumber));
  }

  /** At 0, "Order total" parts from "Order number" at its seventh letter. */
  lemma NumberNotAt0()
    ensures MatchAt(OrderNumber, Pieces, 0).None?
  {
    assert Pieces[0] == 'O' && Pieces[6] == 't';
    forall v | v in Variants(OrderNumber) ensures !LabelAt(Pieces, 0, v) {
      if v == "Order number" {
        NotLabelAt(Pieces, 0, v, 6);
      } else {
        NotLabelAt(Pieces, 0, v, 0);
      }
    }
    NoMatchAt(OrderNumber, Pieces, 0);
  }

  /** At 7, the 'o' of "total" is followed by 't', not 'r'. */
  lemma NumberNotAt7()
    ensures MatchAt(OrderNumber, Pieces, 7).None?
  {
    assert Pieces[7] == 'o' && Pieces[8] == 't';
    forall v | v in Variants(OrderNumber) ensures !LabelAt(Pieces, 7, v) {
      if v == "Order number" {
        NotLabelAt(Pieces, 7, v, 1);
      } else {
        NotLabelAt(Pieces, 7, v, 0);
      }
    }
    NoMatchAt(OrderNumber, Pieces, 7);
  }

  lemma NumberNotBefore()
    ensures forall q :: 0 <= q < 22 ==> MatchAt(OrderNumber, Pieces, q).None?
  {
    forall q | 0 <= q < 22 ensures MatchAt(OrderNumber, Pieces, q).None? {
      if q == 0 {
        NumberNotAt0();
      } else if q == 7 {
        NumberNotAt7();
      } else {
        assert Fold(Pieces[q]) !in StartLetters(OrderNumber);
        NoMatchAtLetter(OrderNumber, Pieces, q);
      }
    }
  }

  lemma NumberFound()
    ensures Search(OrderNumber, Pieces) == Some("12-3456789-0")
  {
    NumberMatch();
    NumberNotBefore();
    SearchAt(OrderNumber, Pieces, 22);
  }

  // ---------------------------------------------------------------------
  // The seller (line 74): found at position 51
  // ---------------------------------------------------------------------

  /** The lazy group, holding `t[..e]`, ends at `f` when `f` is the first
      end from `e` on and no stop character comes before it. */
  lemma {:induction false} LazyGroupEndAt(t: string, e: nat, f: nat)
    requires e <= f <= |t| && SellerEndsAt(t, f)
    requires forall i :: e <= i < f ==> !IsSellerStop(t[i]) && !SellerEndsAt(t, i)
    ensures LazyGroupEnd(t, e) == Some(f)
    decreases f - e
  {
    if e < f {
      LazyGroupEndAt(t, e + 1, f);
    }
  }

  lemma SellerLabel()
    ensures LabelAt(Pieces, 51, "Sold by")
  {
    LabelAtOf(Pieces, 51, "Sold by");
  }

  lemma SellerColon()
    ensures ColonEnd(Pieces, 58) == Some(59)
  {
    assert Pieces[58] == ':';
    assert SkipSpaces(Pieces, 58) == 58;
  }

  /** Within a word of the seller no end of the group. */
  lemma SellerNoEndIn(lo: nat, hi: nat, letters: string)
    requires lo <= hi <= |Pieces|
    requires forall i :: lo <= i < hi ==> Pieces[i] in letters
    requires forall j :: 0 <= j < |letters| ==> !IsSpace(letters[j]) && !IsSellerStop(letters[j])
    requires forall j :: 0 <= j < |letters| ==> !IsFieldSeparator(letters[j])
    ensures forall i :: lo <= i < hi ==> !IsSellerStop(Pieces[i]) && !SellerEndsAt(Pieces, i)
  {
    forall i | lo <= i < hi ensures !IsSellerStop(Pieces[i]) && !SellerEndsAt(Pieces, i) {
      assert !IsSpace(Pieces[i]);
      assert SkipSpaces(Pieces, i) == i;
    }
  }

  /** Within "Acme Traders" no end of the group: the only whitespace is
      followed by a letter. */
  lemma SellerNoEndBefore72()
    ensures forall i :: 61 <= i < 72 ==> !IsSellerStop(Pieces[i]) && !SellerEndsAt(Pieces, i)
  {
    assert forall i :: 61 <= i < 64 ==> Pieces[i] in "cme";
    SellerNoEndIn(61, 64, "cme");
    assert forall i :: 65 <= i < 72 ==> Pieces[i] in "Traders";
    SellerNoEndIn(65, 72, "Traders");
    assert Pieces[64] == ' ' && Pieces[65] == 'T';
    assert SkipSpaces(Pieces, 65) == 65;
  }

  /** After "Acme Traders" the whitespace leads to the separator `·`. */
  lemma SellerEndAt72()
    ensures SellerEndsAt(Pieces, 72)
  {
    assert Pieces[72] == ' ' && Pieces[73] == '\U{B7}';
    assert SkipSpaces(Pieces, 73) == 73;
  }

  lemma SellerText()
    ensures Pieces[60..72] == "Acme Traders"
  {
  }

  lemma SellerGroupAt60()
    ensures GroupAt(Pieces, 60) == Some("Acme Traders")
  {
    assert Pieces[60] == 'A';
    SellerNoEndBefore72();
    SellerEndAt72();
    LazyGroupEndAt(Pieces, 61, 72);
    assert GroupEnd(Pieces, 60) == Some(72);
    SellerText();
  }

  lemma SellerValue()
    ensures ValueAfterColon(SoldBy, Pieces, 59) == Some("Acme Traders")
  {
    assert Pieces[59] == ' ' && Pieces[60] == 'A';
    assert SkipSpaces(Pieces, 60) == 60;
    SellerGroupAt60();
    assert SellerGroup(Pieces, 59, 60) == Some("Acme Traders");
  }

  lemma SellerMatch()
    ensures MatchAt(SoldBy, Pieces, 51) == Some("Acme Traders")
  {
    assert Variants(SoldBy)[0] == "Sold by";
    SellerLabel();
    SellerColon();
    SellerValue();
    assert VariantAt(SoldBy, Pieces, 51, "Sold by") == Some("Acme Traders");
    MatchLabelsAtIsFirstVariant(SoldBy, Pieces, 51, Variants(SoldBy));
  }

  lemma SellerNotBefore22()
    ensures forall q :: 0 <= q < 22 ==> MatchAt(SoldBy, Pieces, q).None?
  {
    forall q | 0 <= q < 22 ensures MatchAt(SoldBy, Pieces, q).None? {
      assert Fold(Pieces[q]) !in StartLetters(SoldBy);
      NoMatchAtLetter(SoldBy, Pieces, q);
    }
  }

  lemma SellerNotIn22To36()
    ensures forall q :: 22 <= q < 36 ==> MatchAt(SoldBy, Pieces, q).None?
  {
    forall q | 22 <= q < 36 ensures MatchAt(SoldBy, Pieces, q).None? {
      assert Fold(Pieces[q]) !in StartLetters(SoldBy);
      NoMatchAtLetter(SoldBy, Pieces, q);
    }
  }

  lemma SellerNotIn36To51()
    ensures forall q :: 36 <= q < 51 ==> MatchAt(SoldBy, Pieces, q).None?
  {
    forall q | 36 <= q < 51 ensures MatchAt(SoldBy, Pieces, q).None? {
      assert Fold(Pieces[q]) !in StartLetters(SoldBy);
      NoMatchAtLetter(SoldBy, Pieces, q);
    }
  }

  lemma SellerNotBefore51()
    ensures forall q :: 0 <= q < 51 ==> MatchAt(SoldBy, Pieces, q).None?
  {
    SellerNotBefore22();
    SellerNotIn22To36();
    SellerNotIn36To51();
  }

  lemma SellerFound()
    ensures Search(SoldBy, Pieces) == Some("Acme Traders")
  {
    SellerMatch();
    SellerNotBefore51();
    SearchAt(SoldBy, Pieces, 51);
  }

  /** "Acme Traders" is already in the form `clean` produces. */
  lemma SellerClean()
    ensures Clean("Acme Traders") == "Acme Traders"
  {
    var v := "Acme Traders";
    assert forall i :: 0 <= i < |v| && IsSpace(v[i]) ==> i == 4;
    assert IsClean(v);
    CleanFixpoints(v);
  }

  // ---------------------------------------------------------------------
  // The whole extraction
  // ---------------------------------------------------------------------

  /** The order card's text yields its total, the total's currency symbol,
      its order number and its normalised seller. */
  lemma ExtractMetaOfLine()
    ensures ExtractMeta(Line) == Meta("\U{A3}23.99", "\U{A3}", "12-3456789-0", "Acme Traders")
  {
    LineIsPieces();
    TotalFound();
    NumberFound();
    SellerFound();
    SellerClean();
    assert IsMoney("\U{A3}23.99");
    MoneySymbolOfMoney("\U{A3}23.99");
  }

  // ---------------------------------------------------------------------
  // A blank seller: the `\s*` gives back its space to the group
  // ---------------------------------------------------------------------

  /** A card whose first seller field is blank. */
  const Blank := "Sold by" + ":" + " " + "|" + " Sold by: Bob"

  lemma BlankGroupAt8()
    ensures GroupAt(Blank, 8) == Some(" ")
  {
    assert Blank[8] == ' ' && Blank[9] == '|';
    assert SkipSpaces(Blank, 9) == 9;
    assert SellerEndsAt(Blank, 9);
    assert LazyGroupEnd(Blank, 9) == Some(9);
    assert Blank[8..9] == " ";
  }

  lemma BlankMatch()
    ensures MatchAt(SoldBy, Blank, 0) == Some(" ")
  {
    assert Variants(SoldBy)[0] == "Sold by";
    LabelAtOf(Blank, 0, "Sold by");
    assert Blank[7] == ':' && Blank[8] == ' ' && Blank[9] == '|';
    assert SkipSpaces(Blank, 7) == 7;
    assert ColonEnd(Blank, 7) == Some(8);
    assert SkipSpaces(Blank, 8) == 9;
    assert GroupAt(Blank, 9).None?;
    BlankGroupAt8();
    assert SellerGroup(Blank, 8, 9) == Some(" ");
    assert VariantAt(SoldBy, Blank, 0, "Sold by") == Some(" ");
    MatchLabelsAtIsFirstVariant(SoldBy, Blank, 0, Variants(SoldBy));
  }

  /** The first "Sold by" matches with the group " ", which `clean` turns
      into "": the later "Bob" is never reached. */
  lemma BlankSellerIsEmpty()
    ensures Search(SoldBy, Blank) == Some(" ")
    ensures ExtractMeta(Blank).seller == ""
  {
    BlankMatch();
    SearchAt(SoldBy, Blank, 0);
    assert Words(" ") == [] by {
      WordsEmpty(" ");
    }
  }

  // ---------------------------------------------------------------------
  // Case-insensitive labels (`re.I`)
  // ---------------------------------------------------------------------

  /** A card whose label is written in capitals. */
  const Shouted := "ORDER TOTAL" + ": " + "$" + "5"

  /** "ORDER TOTAL" matches the variant "Order total" once both are
      case-folded, although the two strings differ. */
  lemma ShoutedLabel()
    ensures LabelAt(Shouted, 0, "Order total") && Shouted[..11] != "Order total"
  {
    var v := "Order total";
    assert Shouted[1] == 'R' && v[1] == 'r';
    forall i | 0 <= i < |v| ensures Fold(Shouted[0 + i]) == Fold(v[i]) {
      assert Shouted[i] in "ORDER TOTAL";
    }
  }

  lemma ShoutedAmount()
    ensures TotalValue(Shouted, 12) == Some("$5")
  {
    assert Shouted[12] == ' ' && Shouted[13] == '$' && Shouted[14] == '5' && |Shouted| == 15;
    assert SkipSpaces(Shouted, 12) == 13;
    assert SkipSpaces(Shouted, 14) == 14;
    assert SkipAmount(Shouted, 14) == 15;
    assert Shouted[13..15] == "$5";
  }

  /** The total search finds "$5" behind the capitalised label. */
  lemma ShoutedTotalFound()
    ensures Search(OrderTotal, Shouted) == Some("$5")
  {
    assert Variants(OrderTotal)[0] == "Order total";
    ShoutedLabel();
    assert Shouted[11] == ':';
    assert SkipSpaces(Shouted, 11) == 11;
    assert ColonEnd(Shouted, 11) == Some(12);
    ShoutedAmount();
    assert VariantAt(OrderTotal, Shouted, 0, "Order total") == Some("$5");
    MatchLabelsAtIsFirstVariant(OrderTotal, Shouted, 0, Variants(OrderTotal));
    SearchAt(OrderTotal, Shouted, 0);
  }
}
