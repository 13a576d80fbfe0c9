/**
 * The year relevance filter of `parse_page_list_only`
 * (ebay_purchases_list_only.py:97-99): the set of `\b(20\d{2})\b` tokens of
 * a block's text, and the rule that drops a link whose block shows years
 * but not the target year.
 */
module Years {

  predicate IsDigit(c: char) {
    '0' <= c <= '9'
  }

  /** The regex class `\w`: ASCII letters and digits, '_', and the
      alphanumeric characters of Latin-1 and Latin Extended-A. */
  predicate IsWordChar(c: char) {
    || IsDigit(c)
    || 'A' <= c <= 'Z'
    || 'a' <= c <= 'z'
    || c == '_'
    || c == '\U{AA}' || c == '\U{B2}' || c == '\U{B3}' || c == '\U{B5}'
    || c == '\U{B9}' || c == '\U{BA}' || '\U{BC}' <= c <= '\U{BE}'
    || ('\U{C0}' <= c <= '\U{17F}' && c != '\U{D7}' && c != '\U{F7}')
  }

  /** `\b(20\d{2})\b` matches at position `p` of `t`. */
  predicate YearTokenAt(t: string, p: nat) {
    && p + 4 <= |t|
    && t[p] == '2' && t[p + 1] == '0' && IsDigit(t[p + 2]) && IsDigit(t[p + 3])
    && (p == 0 || !IsWordChar(t[p - 1]))
    && (p + 4 == |t| || !IsWordChar(t[p + 4]))
  }

  /** `int(y)` of the four-digit token at `p`. */
  function YearValue(t: string, p: nat): (y: int)
    requires YearTokenAt(t, p)
    ensures 2000 <= y <= 2099
  {
    2000 + 10 * (t[p + 2] as int - '0' as int) + (t[p + 3] as int - '0' as int)
  }

  /** `re.findall` from position `p`: after a match the scan resumes at its end. */
  function YearsFrom(t: string, p: nat): (ys: set<int>)
    requires p <= |t|
    decreases |t| - p
  {
    if p + 4 > |t| then {}
    else if YearTokenAt(t, p) then {YearValue(t, p)} + YearsFrom(t, p + 4)
    else YearsFrom(t, p + 1)
  }

  /** `{int(y) for y in re.findall(r"\b(20\d{2})\b", t)}` (line 97). */
  function YearsIn(t: string): set<int> {
    YearsFrom(t, 0)
  }

  /** No token starts inside another: the character before it would be a digit. */
  lemma NoOverlappingTokens(t: string, p: nat, q: nat)
    requires YearTokenAt(t, p) && p < q < p + 4
    ensures !YearTokenAt(t, q)
  {
  }

  /** The non-overlapping scan finds every token: a year is in the set
      exactly when some token from `p` on spells it. */
  lemma {:induction false} YearsFromExactly(t: string, p: nat, y: int)
    requires p <= |t|
    ensures y in YearsFrom(t, p) <==> exists q :: p <= q && YearTokenAt(t, q) && YearValue(t, q) == y
    decreases |t| - p
  {
    if p + 4 <= |t| {
      if YearTokenAt(t, p) {
        YearsFromExactly(t, p + 4, y);
        if exists q :: p <= q && YearTokenAt(t, q) && YearValue(t, q) == y {
          var q :| p <= q && YearTokenAt(t, q) && YearValue(t, q) == y;
          if p < q < p + 4 {
            NoOverlappingTokens(t, p, q);
          }
        }
      } else {
        YearsFromExactly(t, p + 1, y);
      }
    }
  }

  /** Every year of a block lies in 2000..2099, and each is spelled by a token. */
  lemma YearsExactly(t: string, y: int)
    ensures y in YearsIn(t) <==> exists q :: YearTokenAt(t, q) && YearValue(t, q) == y
    ensures y in YearsIn(t) ==> 2000 <= y <= 2099
  {
    YearsFromExactly(t, 0, y);
  }

  /** The drop condition of line 98, clause by clause. */
  predicate IsForeignYearBlock(years: set<int>, target: int) {
    |years| > 0 && target !in years && exists y :: y in years && y != target
  }

  /** The third clause of line 98 adds nothing: a link is dropped exactly
      when its block shows at least one year and not the target year. */
  lemma ForeignYearBlockIff(years: set<int>, target: int)
    ensures IsForeignYearBlock(years, target) <==> years != {} && target !in years
  {
    if years != {} && target !in years && forall y :: y in years ==> y == target {
      assert false;
    }
  }

  /** A block that shows the target year among others is kept. */
  lemma TargetYearBlockKept()
    ensures !IsForeignYearBlock(YearsIn("2023 2024"), 2024)
  {
  }

  /** A block that shows only another year is dropped. */
  lemma OtherYearBlockDropped()
    ensures IsForeignYearBlock(YearsIn("2023"), 2024)
  {
  }

  /** A block without any year is kept. */
  lemma YearlessBlockKept()
    ensures !IsForeignYearBlock(YearsIn("No year"), 2024)
  {
  }
}
