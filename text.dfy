/**
 * The text normaliser `clean` (ebay_purchases_list_only.py:38-39):
 * non-breaking spaces become spaces, every whitespace run becomes one
 * space, and both ends are trimmed.  It is `" ".join(s.split())`, so it
 * is modelled as `Join(Words(s))`.
 */
module Text {

  /** Python's `str.isspace()`, which is also what `str.split()` and the
      regex class `\s` use.  U+00A0 is in the set, so the explicit
      `replace("\xa0", " ")` before `split()` changes nothing. */
  predicate IsSpace(c: char) {
    || c == ' '
    || '\t' <= c <= '\r'
    || '\U{1C}' <= c <= '\U{1F}'
    || c == '\U{85}'
    || c == '\U{A0}'
    || c == '\U{1680}'
    || '\U{2000}' <= c <= '\U{200A}'
    || c == '\U{2028}'
    || c == '\U{2029}'
    || c == '\U{202F}'
    || c == '\U{205F}'
    || c == '\U{3000}'
  }

  /** A word of `str.split()`: non-empty and free of whitespace. */
  predicate IsWord(w: string) {
    |w| > 0 && forall i :: 0 <= i < |w| ==> !IsSpace(w[i])
  }

  /** Positions `i` and `i + 1` of `t` both hold whitespace. */
  predicate DoubleSpaceAt(t: string, i: int) {
    0 <= i && i + 1 < |t| && IsSpace(t[i]) && IsSpace(t[i + 1])
  }

  /** Normal form produced by `clean`: no whitespace at either end, every
      whitespace character an ordinary space, and no two of them adjacent. */
  predicate IsClean(t: string) {
    && (|t| > 0 ==> !IsSpace(t[0]) && !IsSpace(t[|t| - 1]))
    && (forall i :: 0 <= i < |t| && IsSpace(t[i]) ==> t[i] == ' ')
    && (forall i :: 0 <= i < |t| ==> !DoubleSpaceAt(t, i))
  }

  /** Length of the maximal whitespace-free prefix of `s`. */
  function WordLength(s: string): (n: nat)
    ensures n <= |s|
    ensures forall i :: 0 <= i < n ==> !IsSpace(s[i])
    ensures n < |s| ==> IsSpace(s[n])
  {
    if s == [] || IsSpace(s[0]) then 0 else 1 + WordLength(s[1..])
  }

  /** `s.split()`: the maximal whitespace-free runs of `s`, left to right. */
  function Words(s: string): (ws: seq<string>)
    ensures forall k :: 0 <= k < |ws| ==> IsWord(ws[k])
    decreases |s|
  {
    if s == [] then []
    else if IsSpace(s[0]) then Words(s[1..])
    else
      var n := WordLength(s);
      [s[..n]] + Words(s[n..])
  }

  /** `" ".join(ws)`. */
  function Join(ws: seq<string>): string {
    if ws == [] then ""
    else if |ws| == 1 then ws[0]
    else ws[0] + " " + Join(ws[1..])
  }

  /** `clean(s)`. */
  function Clean(s: string): string {
    Join(Words(s))
  }

  /** `clean(s)` is in normal form, has exactly the words of `s`, and is
      empty exactly when `s` is all whitespace. */
  lemma CleanIsNormal(s: string)
    ensures IsClean(Clean(s))
    ensures Words(Clean(s)) == Words(s)
    ensures Clean(s) == [] <==> forall i :: 0 <= i < |s| ==> IsSpace(s[i])
  {
    var ws := Words(s);
    JoinIsClean(ws);
    WordsOfJoin(ws);
    WordsEmpty(s);
  }

  /** Joining words gives a clean string that is empty exactly when there
      are no words and starts and ends with a non-space. */
  lemma {:induction false} JoinIsClean(ws: seq<string>)
    requires forall k :: 0 <= k < |ws| ==> IsWord(ws[k])
    ensures IsClean(Join(ws))
    ensures ws == [] <==> Join(ws) == []
    ensures ws != [] ==> !IsSpace(Join(ws)[0]) && !IsSpace(Join(ws)[|Join(ws)| - 1])
  {
    if |ws| > 1 {
      JoinIsClean(ws[1..]);
      var w, rest := ws[0], Join(ws[1..]);
      var t := w + " " + rest;
      assert Join(ws) == t;
      assert forall i :: 0 <= i < |w| ==> t[i] == w[i];
      assert forall i :: |w| < i < |t| ==> t[i] == rest[i - |w| - 1];
      assert t[|w| + 1] == rest[0];
      forall i | 0 <= i < |t| ensures !DoubleSpaceAt(t, i) {
        if i > |w| {
          assert !DoubleSpaceAt(rest, i - |w| - 1);
        }
      }
    }
  }

  /** A string with no whitespace at all is one word. */
  lemma WordsOfWord(w: string)
    requires IsWord(w)
    ensures Words(w) == [w]
  {
    assert WordLength(w) == |w|;
    assert w[..|w|] == w;
    assert w[|w|..] == [];
  }

  /** A word followed by whitespace (or nothing) splits off as the first word. */
  lemma WordsOfWordThen(w: string, t: string)
    requires IsWord(w)
    requires t == [] || IsSpace(t[0])
    ensures Words(w + t) == [w] + Words(t)
  {
    var s := w + t;
    var n := WordLength(s);
    assert forall i :: 0 <= i < |w| ==> s[i] == w[i];
    assert t != [] ==> s[|w|] == t[0];
    assert n == |w|;
    assert s[..n] == w;
    assert s[n..] == t;
  }

  /** Splitting undoes joining. */
  lemma {:induction false} WordsOfJoin(ws: seq<string>)
    requires forall k :: 0 <= k < |ws| ==> IsWord(ws[k])
    ensures Words(Join(ws)) == ws
  {
    if |ws| == 1 {
      WordsOfWord(ws[0]);
    } else if |ws| > 1 {
      var rest := Join(ws[1..]);
      WordsOfJoin(ws[1..]);
      assert Join(ws) == ws[0] + (" " + rest);
      WordsOfWordThen(ws[0], " " + rest);
      assert (" " + rest)[1..] == rest;
    }
  }

  /** Every character of a word of `s` is a character of `s`. */
  lemma {:induction false} WordsCharacters(s: string)
    ensures forall k, i :: 0 <= k < |Words(s)| && 0 <= i < |Words(s)[k]| ==> Words(s)[k][i] in s
    decreases |s|
  {
    if s != [] {
      if IsSpace(s[0]) {
        WordsCharacters(s[1..]);
        assert forall c :: c in s[1..] ==> c in s;
      } else {
        var n := WordLength(s);
        WordsCharacters(s[n..]);
        assert forall c :: c in s[n..] ==> c in s;
        assert forall c :: c in s[..n] ==> c in s;
        var ws := Words(s);
        assert ws == [s[..n]] + Words(s[n..]);
        forall k, i | 0 <= k < |ws| && 0 <= i < |ws[k]| ensures ws[k][i] in s {
          if k == 0 {
            assert ws[k][i] in s[..n];
          } else {
            assert ws[k] == Words(s[n..])[k - 1];
          }
        }
      }
    }
  }

  /** `clean` introduces no character other than the space. */
  lemma CleanCharacters(s: string)
    ensures forall i :: 0 <= i < |Clean(s)| ==> Clean(s)[i] == ' ' || Clean(s)[i] in s
  {
    WordsCharacters(s);
    JoinCharacters(Words(s), s);
  }

  /** Every character of a join is a space or a character of some word. */
  lemma {:induction false} JoinCharacters(ws: seq<string>, s: string)
    requires forall k, i :: 0 <= k < |ws| && 0 <= i < |ws[k]| ==> ws[k][i] in s
    ensures forall i :: 0 <= i < |Join(ws)| ==> Join(ws)[i] == ' ' || Join(ws)[i] in s
  {
    if |ws| > 1 {
      JoinCharacters(ws[1..], s);
      var w, rest := ws[0], Join(ws[1..]);
      var t := w + " " + rest;
      forall i | 0 <= i < |t| ensures t[i] == ' ' || t[i] in s {
        if i < |w| {
          assert t[i] == w[i];
        } else if i > |w| {
          assert t[i] == rest[i - |w| - 1];
        }
      }
    }
  }

  /** A string has no words exactly when it is all whitespace. */
  lemma {:induction false} WordsEmpty(s: string)
    ensures Words(s) == [] <==> forall i :: 0 <= i < |s| ==> IsSpace(s[i])
    decreases |s|
  {
    if s != [] && IsSpace(s[0]) {
      WordsEmpty(s[1..]);
      assert forall i :: 1 <= i < |s| ==> s[i] == s[1..][i - 1];
    }
  }

  /** A suffix of a clean string that starts at a non-space is clean. */
  lemma CleanSuffix(t: string, k: nat)
    requires IsClean(t) && k < |t| && !IsSpace(t[k])
    ensures IsClean(t[k..])
  {
    var r := t[k..];
    assert forall i :: 0 <= i < |r| ==> r[i] == t[k + i];
    forall i | 0 <= i < |r| ensures !DoubleSpaceAt(r, i) {
      assert !DoubleSpaceAt(t, k + i);
    }
  }

  /** Joining a word in front of a non-empty list puts one space between. */
  lemma JoinCons(w: string, ws: seq<string>)
    requires ws != []
    ensures Join([w] + ws) == w + ([' '] + Join(ws))
  {
    assert ([w] + ws)[0] == w;
    assert ([w] + ws)[1..] == ws;
  }

  /** A leading whitespace character, whichever it is, is skipped by
      `split()`.  With `WordsOfWord` and `WordsOfWordThen` this fixes the
      words of every string. */
  lemma WordsAfterSpace(c: char, rest: string)
    requires IsSpace(c)
    ensures Words([c] + rest) == Words(rest)
  {
    assert ([c] + rest)[1..] == rest;
  }

  /** Any string is the part before position `n`, the character there,
      and the part after. */
  lemma SplitAround(t: string, n: nat)
    requires n < |t|
    ensures t == t[..n] + ([t[n]] + t[n + 1..])
  {
  }

  /** A non-empty prefix without whitespace is a word. */
  lemma PrefixIsWord(t: string, n: nat)
    requires 0 < n <= |t|
    requires forall i :: 0 <= i < n ==> !IsSpace(t[i])
    ensures IsWord(t[..n])
  {
  }

  /** In a clean string the first whitespace character is an inner
      ordinary space followed by a non-space. */
  lemma CleanFirstSpace(t: string, n: nat)
    requires IsClean(t) && n == WordLength(t) && n < |t|
    ensures 0 < n < |t| - 1 && t[n] == ' ' && !IsSpace(t[n + 1])
  {
    assert IsSpace(t[n]);
    assert !DoubleSpaceAt(t, n);
  }

  /** A clean string with a space splits at its first space into a word,
      that space, and a clean non-empty rest that starts with a non-space. */
  lemma CleanSplitsAtFirstSpace(t: string, n: nat)
    requires IsClean(t) && n == WordLength(t) && n < |t|
    ensures 0 < n < |t| - 1
    ensures IsWord(t[..n]) && IsClean(t[n + 1..]) && !IsSpace(t[n + 1])
    ensures t == t[..n] + ([' '] + t[n + 1..])
  {
    CleanFirstSpace(t, n);
    PrefixIsWord(t, n);
    CleanSuffix(t, n + 1);
    SplitAround(t, n);
  }

  /** Splitting and re-joining a word, a space and a rest that has words. */
  lemma JoinWordsOfWordSpace(w: string, rest: string)
    requires IsWord(w) && rest != [] && !IsSpace(rest[0])
    ensures Join(Words(w + ([' '] + rest))) == w + ([' '] + Join(Words(rest)))
  {
    WordsOfWordThen(w, [' '] + rest);
    WordsAfterSpace(' ', rest);
    WordsEmpty(rest);
    JoinCons(w, Words(rest));
  }

  /** A clean string is rebuilt exactly by joining its words. */
  lemma {:induction false} JoinOfWordsOfClean(t: string)
    requires IsClean(t)
    ensures Join(Words(t)) == t
    decreases |t|
  {
    if t != [] {
      var n := WordLength(t);
      if n == |t| {
        WordsOfWord(t);
      } else {
        CleanSplitsAtFirstSpace(t, n);
        var w, rest := t[..n], t[n + 1..];
        JoinOfWordsOfClean(rest);
        JoinWordsOfWordSpace(w, rest);
      }
    }
  }

  /** `clean` fixes exactly the strings already in normal form, so it is
      idempotent. */
  lemma CleanFixpoints(t: string)
    ensures Clean(t) == t <==> IsClean(t)
    ensures Clean(Clean(t)) == Clean(t)
  {
    if IsClean(t) {
      JoinOfWordsOfClean(t);
    }
    CleanIsNormal(t);
    JoinOfWordsOfClean(Clean(t));
  }

  /** `split()` on a non-breaking space, a tab and a trailing space: each
      of them only separates words.  The proof uses the lemmas above, not
      the definition of `Words`. */
  lemma WordsMixedWhitespace()
    ensures Words("\U{A0}a\t b ") == ["a", "b"]
  {
    var r3 := "b" + [' '];
    var r2 := [' '] + r3;
    var r1 := ['\t'] + r2;
    var r0 := "a" + r1;
    assert "\U{A0}a\t b " == ['\U{A0}'] + r0;
    WordsAfterSpace(' ', []);
    assert [' '] + [] == [' '];
    assert Words([' ']) == [];
    WordsOfWordThen("b", [' ']);
    assert Words(r3) == ["b"];
    WordsAfterSpace(' ', r3);
    assert Words(r2) == ["b"];
    WordsAfterSpace('\t', r2);
    assert Words(r1) == ["b"];
    WordsOfWordThen("a", r1);
    assert Words(r0) == ["a", "b"];
    WordsAfterSpace('\U{A0}', r0);
  }

  /** `clean` on the same string gives the two words with one space. */
  lemma CleanMixedWhitespace()
    ensures Clean("\U{A0}a\t b ") == "a b"
  {
    WordsMixedWhitespace();
    assert Join(["b"]) == "b";
    assert Join(["a", "b"]) == "a" + " " + "b";
  }
}
