/**
 * The French amount-in-words of the invoice page (numberToWordsFr and its
 * inner convertChunk, components/InvoicePage.tsx). The amount arrives split
 * the way the source splits it: whole dirhams and the rounded cents, which
 * can reach 100 when the fraction rounds up.
 */
module AmountInWords {
  import opened Wrappers
  import opened JsString

  const Units: seq<string> := ["", "UN", "DEUX", "TROIS", "QUATRE", "CINQ", "SIX", "SEPT", "HUIT", "NEUF"]
  const Teens: seq<string> := ["DIX", "ONZE", "DOUZE", "TREIZE", "QUATORZE", "QUINZE", "SEIZE",
                               "DIX-SEPT", "DIX-HUIT", "DIX-NEUF"]
  const Tens: seq<string> := ["", "DIX", "VINGT", "TRENTE", "QUARANTE", "CINQUANTE", "SOIXANTE",
                              "SOIXANTE-DIX", "QUATRE-VINGT", "QUATRE-VINGT-DIX"]
  const Scales: seq<string> := ["", "MILLE", "MILLION", "MILLIARD"]

  // ---------------------------------------------------------------------
  // Well-spaced phrases
  // ---------------------------------------------------------------------

  /** The letters the tables are written in. */
  predicate WordChar(c: char)
  {
    ('A' <= c <= 'Z') || c == '-' || c == 'É'
  }

  /** Letters of the tables and spaces, never two spaces in a row. */
  ghost predicate SingleSpaced(s: string)
  {
    && (forall i :: 0 <= i < |s| ==> WordChar(s[i]) || s[i] == ' ')
    && (forall i :: 0 <= i < |s| - 1 ==> !(s[i] == ' ' && s[i + 1] == ' '))
  }

  /**
   * Words of the tables separated by single spaces: not empty, no space at
   * either end and no two spaces in a row.
   */
  ghost predicate WellSpaced(s: string)
  {
    s != [] && s[0] != ' ' && s[|s| - 1] != ' ' && SingleSpaced(s)
  }

  /** The letters of the tables are not whitespace. */
  lemma WordCharNotWhitespace(c: char)
    requires WordChar(c)
    ensures !IsWhitespace(c)
  {
  }

  /** A well-spaced phrase begins and ends with a letter, so `trim` leaves it as it is. */
  lemma WellSpacedTrimmed(s: string)
    requires WellSpaced(s)
    ensures Trim(s) == s
  {
    var first, last := s[0], s[|s| - 1];
    assert WordChar(first) && WordChar(last);
    WordCharNotWhitespace(first);
    WordCharNotWhitespace(last);
    TrimOfTrimmed(s);
  }

  /** Two phrases written one after the other still form one. */
  lemma WellSpacedConcat(a: string, b: string)
    requires WellSpaced(a) && WellSpaced(b)
    ensures WellSpaced(a + b)
  {
    var x := a + b;
    forall i | 0 <= i < |x| - 1 ensures !(x[i] == ' ' && x[i + 1] == ' ') {
      if i + 1 < |a| {
        assert x[i] == a[i] && x[i + 1] == a[i + 1];
      } else if i + 1 == |a| {
        assert x[i] == a[|a| - 1];
      } else {
        assert x[i] == b[i - |a|] && x[i + 1] == b[i + 1 - |a|];
      }
    }
  }

  /** Two phrases separated by a space form one. */
  lemma WellSpacedJoin(a: string, b: string)
    requires WellSpaced(a) && WellSpaced(b)
    ensures WellSpaced(a + " " + b)
  {
    var x := a + " " + b;
    forall i | 0 <= i < |x| - 1 ensures !(x[i] == ' ' && x[i + 1] == ' ') {
      if i + 1 < |a| {
        assert x[i] == a[i] && x[i + 1] == a[i + 1];
      } else if i + 1 == |a| {
        assert x[i] == a[|a| - 1];
      } else if i == |a| {
        assert x[i + 1] == b[0];
      } else {
        assert x[i] == b[i - |a| - 1] && x[i + 1] == b[i - |a|];
      }
    }
  }

  /** Two phrases joined by a hyphen form one. */
  lemma WellSpacedHyphen(a: string, b: string)
    requires WellSpaced(a) && WellSpaced(b)
    ensures WellSpaced(a + "-" + b)
  {
    WellSpacedConcat(a, "-");
    WellSpacedConcat(a + "-", b);
  }

  /** Two phrases joined by " ET " form one. */
  lemma WellSpacedEt(a: string, b: string)
    requires WellSpaced(a) && WellSpaced(b)
    ensures WellSpaced(a + " ET " + b)
  {
    WellSpacedJoin(a, "ET");
    WellSpacedJoin(a + " " + "ET", b);
    assert a + " ET " + b == a + " " + "ET" + " " + b;
  }

  /** A well-spaced phrase is untouched by the final collapse, upper-casing and trim. */
  lemma NormalizeOfWellSpaced(s: string)
    requires WellSpaced(s)
    ensures Normalize(s) == s
  {
    CollapseOfSingleSpaced(s);
    ToUpperOfUpper(s);
    WellSpacedTrimmed(s);
  }

  /** The entries of the tables are single words. */
  lemma UnitWellSpaced(u: nat)
    requires 1 <= u < 10
    ensures WellSpaced(Units[u])
  {
  }

  lemma TeenWellSpaced(t: nat)
    requires t < 10
    ensures WellSpaced(Teens[t])
  {
  }

  lemma TenWellSpaced(t: nat)
    requires 1 <= t < 10
    ensures WellSpaced(Tens[t])
  {
    if t < 7 {
      SimpleTenWellSpaced(t);
    } else {
      CompoundTenWellSpaced(t);
    }
  }

  /** DIX to SOIXANTE. */
  lemma SimpleTenWellSpaced(t: nat)
    requires 1 <= t < 7
    ensures WellSpaced(Tens[t])
  {
  }

  /** SOIXANTE-DIX, QUATRE-VINGT and QUATRE-VINGT-DIX. */
  lemma CompoundTenWellSpaced(t: nat)
    requires 7 <= t < 10
    ensures WellSpaced(Tens[t])
  {
  }

  // ---------------------------------------------------------------------
  // convertChunk
  // ---------------------------------------------------------------------

  /** The words of 0..99 (the second half of convertChunk); 0 has none. */
  function BelowHundred(n: nat): string
    requires n < 100
  {
    if n == 0 then ""
    else if n < 10 then Units[n]
    else if n < 20 then Teens[n - 10]
    else
      var ten, unit := n / 10, n % 10;
      if ten == 8 then Tens[8] + (if unit == 0 then "S" else "-" + Units[unit])
      else if ten == 7 || ten == 9 then Tens[ten - 1] + (if ten == 7 && unit == 1 then " ET " else "-") + Teens[unit]
      else Tens[ten] + (if unit > 0 then (if unit == 1 then " ET " else "-") + Units[unit] else "")
  }

  /** "CENT" for a hundreds digit of 1, "<digit> CENT" above it, plural when nothing follows. */
  function HundredsWords(hundreds: nat, rest: nat): string
    requires 1 <= hundreds < 10
  {
    (if hundreds > 1 then Units[hundreds] + " " else "") + "CENT" + (if hundreds > 1 && rest == 0 then "S" else "")
  }

  /** The words of a chunk 0..999: its hundreds, then the words of the rest, one space between. */
  function ChunkWords(n: nat): string
    requires n < 1000
  {
    if n < 100 then BelowHundred(n)
    else HundredsWords(n / 100, n % 100) + (if n % 100 > 0 then " " + BelowHundred(n % 100) else "")
  }

  /** What convertChunk has written before the last two digits: the hundreds and the space after them. */
  function ChunkHead(n: nat): string
    requires n < 1000
  {
    if n < 100 then "" else HundredsWords(n / 100, n % 100) + (if n % 100 > 0 then " " else "")
  }

  /** A chunk's words are its head followed by the words of its last two digits. */
  lemma ChunkWordsSplit(n: nat)
    requires n < 1000
    ensures ChunkWords(n) == ChunkHead(n) + BelowHundred(n % 100)
  {
    if n < 100 {
      SmallChunkSplit(n);
    } else {
      HundredsChunkSplit(n, n / 100, n % 100);
    }
  }

  lemma SmallChunkSplit(n: nat)
    requires n < 100
    ensures ChunkWords(n) == ChunkHead(n) + BelowHundred(n % 100)
  {
    assert n % 100 == n;
    assert ChunkHead(n) == "";
  }

  lemma HundredsChunkSplit(n: nat, hundreds: nat, rest: nat)
    requires 100 <= n < 1000 && hundreds == n / 100 && rest == n % 100
    ensures ChunkWords(n) == ChunkHead(n) + BelowHundred(n % 100)
  {
    assert 1 <= hundreds < 10 && rest < 100;
    var head := HundredsWords(hundreds, rest);
    if rest > 0 {
      ConcatAssociative(head, " ", BelowHundred(rest));
    }
  }

  /**
   * convertChunk(n): builds the words of `n` piece by piece, hundreds first;
   * the result is the chunk's words.
   */
  method ConvertChunk(n: nat) returns (words: string)
    requires n < 1000
    ensures words == ChunkWords(n)
  {
    if n == 0 {
      return "";
    }
    words := "";
    var m := n;
    if m >= 100 {
      var hundreds := m / 100;
      words := words + (if hundreds > 1 then Units[hundreds] + " " else "") + "CENT";
      if hundreds > 1 && m % 100 == 0 {
        words := words + "S";
      }
      assert words == HundredsWords(hundreds, m % 100);
      m := m % 100;
      if m > 0 {
        words := words + " ";
      }
    }
    assert words == ChunkHead(n) && m == n % 100;
    ChunkWordsSplit(n);
    if m > 0 {
      var tail := ConvertBelowHundred(m);
      words := words + tail;
    } else {
      assert words == ChunkHead(n) + BelowHundred(m);
    }
  }

  /** The second half of convertChunk: the words of 1..99, units, teens or tens. */
  method ConvertBelowHundred(m: nat) returns (tail: string)
    requires 0 < m < 100
    ensures tail == BelowHundred(m)
  {
    if m < 10 {
      tail := Units[m];
    } else if m < 20 {
      tail := Teens[m - 10];
    } else {
      var ten := m / 10;
      var unit := m % 10;
      if ten == 8 {
        tail := Tens[ten] + (if unit == 0 then "S" else "-" + Units[unit]);
      } else if ten == 7 || ten == 9 {
        tail := Tens[ten - 1] + (if ten == 7 && unit == 1 then " ET " else "-") + Teens[unit];
      } else {
        tail := Tens[ten] + (if unit > 0 then (if unit == 1 then " ET " else "-") + Units[unit] else "");
      }
    }
  }

  /** Every number from 20 to 99 reads as a well-spaced phrase. */
  lemma TensWellSpaced(n: nat)
    requires 20 <= n < 100
    ensures WellSpaced(BelowHundred(n))
  {
    var ten, unit := n / 10, n % 10;
    assert 2 <= ten < 10 && unit < 10;
    if ten == 8 {
      EightiesWellSpaced(unit);
    } else if ten == 7 || ten == 9 {
      SeventiesAndNinetiesWellSpaced(ten, unit);
    } else {
      PlainTensWellSpaced(ten, unit);
    }
  }

  /** QUATRE-VINGTS, and QUATRE-VINGT-<unit>. */
  lemma EightiesWellSpaced(unit: nat)
    requires unit < 10
    ensures WellSpaced(Tens[8] + (if unit == 0 then "S" else "-" + Units[unit]))
  {
    var w := Tens[8];
    TenWellSpaced(8);
    if unit == 0 {
      WellSpacedConcat(w, "S");
    } else {
      var u := Units[unit];
      ConcatAssociative(w, "-", u);
      UnitWellSpaced(unit);
      WellSpacedHyphen(w, u);
    }
  }

  /** The seventies and nineties: the tens below them, then a teen. */
  lemma SeventiesAndNinetiesWellSpaced(ten: nat, unit: nat)
    requires (ten == 7 || ten == 9) && unit < 10
    ensures WellSpaced(Tens[ten - 1] + (if ten == 7 && unit == 1 then " ET " else "-") + Teens[unit])
  {
    var w, u := Tens[ten - 1], Teens[unit];
    TenWellSpaced(ten - 1);
    TeenWellSpaced(unit);
    if ten == 7 && unit == 1 {
      WellSpacedEt(w, u);
    } else {
      WellSpacedHyphen(w, u);
    }
  }

  /** VINGT to SOIXANTE, alone, with ET UN, or hyphenated to a unit. */
  lemma PlainTensWellSpaced(ten: nat, unit: nat)
    requires 2 <= ten <= 6 && unit < 10
    ensures WellSpaced(Tens[ten] + (if unit > 0 then (if unit == 1 then " ET " else "-") + Units[unit] else ""))
  {
    var w := Tens[ten];
    TenWellSpaced(ten);
    if unit == 0 {
      assert w + "" == w;
    } else {
      var u := Units[unit];
      UnitWellSpaced(unit);
      if unit == 1 {
        ConcatAssociative(w, " ET ", u);
        WellSpacedEt(w, u);
      } else {
        ConcatAssociative(w, "-", u);
        WellSpacedHyphen(w, u);
      }
    }
  }

  /** Every number from 1 to 99 reads as a well-spaced phrase. */
  lemma BelowHundredWellSpaced(n: nat)
    requires 0 < n < 100
    ensures WellSpaced(BelowHundred(n))
  {
    if n < 10 {
      UnitWellSpaced(n);
    } else if n < 20 {
      TeenWellSpaced(n - 10);
    } else {
      TensWellSpaced(n);
    }
  }

  /** The hundreds of a chunk read as a well-spaced phrase. */
  lemma HundredsWellSpaced(hundreds: nat, rest: nat)
    requires 1 <= hundreds < 10
    ensures WellSpaced(HundredsWords(hundreds, rest))
  {
    if hundreds > 1 {
      var u := Units[hundreds];
      if rest == 0 {
        assert HundredsWords(hundreds, rest) == u + " " + "CENT" + "S";
        UnitWellSpaced(hundreds);
        WellSpacedJoin(u, "CENT");
        WellSpacedConcat(u + " " + "CENT", "S");
      } else {
        assert HundredsWords(hundreds, rest) == u + " " + "CENT";
        UnitWellSpaced(hundreds);
        WellSpacedJoin(u, "CENT");
      }
    }
  }

  /**
   * A chunk reads as nothing exactly when it is 0, and otherwise as a
   * well-spaced phrase; so the `trim` the integer loop applies to it
   * changes nothing.
   */
  lemma ChunkWordsWellSpaced(n: nat)
    requires n < 1000
    ensures ChunkWords(n) == [] <==> n == 0
    ensures n > 0 ==> WellSpaced(ChunkWords(n)) && Trim(ChunkWords(n)) == ChunkWords(n)
  {
    if n > 0 {
      if n < 100 {
        BelowHundredWellSpaced(n);
      } else {
        var h, rest := n / 100, n % 100;
        var head := HundredsWords(h, rest);
        HundredsWellSpaced(h, rest);
        if rest > 0 {
          var tail := BelowHundred(rest);
          assert ChunkWords(n) == head + (" " + tail);
          ConcatAssociative(head, " ", tail);
          BelowHundredWellSpaced(rest);
          WellSpacedJoin(head, tail);
        } else {
          assert ChunkWords(n) == head + "";
        }
      }
      WellSpacedTrimmed(ChunkWords(n));
    }
  }

  // ---------------------------------------------------------------------
  // numberToWordsFr
  // ---------------------------------------------------------------------

  /**
   * The scale word of the chunk `index` places above the units. Past
   * "MILLIARD" the source indexes past the end of its table; the undefined
   * value it reads is falsy like "", so no scale word is written.
   */
  function ScaleWord(index: nat): string
  {
    if index < |Scales| then Scales[index] else ""
  }

  /** The words of one non-zero chunk with its scale (one pass of the integer loop). */
  function ScaledChunk(chunk: nat, index: nat): string
    requires 0 < chunk < 1000
  {
    var words := Trim(ChunkWords(chunk));
    var scale := ScaleWord(index);
    if scale == "MILLE" && chunk == 1 then scale
    else if scale != "" then
      words + " " + scale + (if chunk > 1 && (scale == "MILLION" || scale == "MILLIARD") then "S" else "")
    else words
  }

  /**
   * The words of the non-zero base-1000 chunks of `n`, most significant
   * first, the least significant chunk carrying scale `index`.
   */
  function Parts(n: nat, index: nat): seq<string>
    decreases n
  {
    if n == 0 then []
    else Parts(n / 1000, index + 1) + (if n % 1000 > 0 then [ScaledChunk(n % 1000, index)] else [])
  }

  /** Peeling the least significant chunk off `n` in front of the parts already collected. */
  lemma PartsStep(n: nat, index: nat, found: seq<string>, parts: seq<string>)
    requires n > 0
    requires found == (if n % 1000 > 0 then [ScaledChunk(n % 1000, index)] else [])
    ensures Parts(n / 1000, index + 1) + (found + parts) == Parts(n, index) + parts
  {
    var higher := Parts(n / 1000, index + 1);
    assert Parts(n, index) == higher + found;
    ConcatAssociative(higher, found, parts);
  }

  /** The words of the whole dirhams, with the source's single `replace('UN MILLE', 'MILLE')`. */
  function IntegerWords(dirhams: nat): string
  {
    if dirhams == 0 then "ZÉRO"
    else Trim(ReplaceFirst(Join(Parts(dirhams, 0), " "), "UN MILLE", "MILLE"))
  }

  /** The last step: `replace(/\s+/g, ' ').toUpperCase().trim()`. */
  function Normalize(s: string): string
  {
    Trim(ToUpper(CollapseWhitespace(s)))
  }

  /** The amount in words as numberToWordsFr writes it. */
  function AmountWords(dirhams: nat, cents: nat): string
    requires cents <= 100
  {
    if dirhams == 0 && cents == 0 then "ZÉRO DIRHAMS"
    else
      var whole := IntegerWords(dirhams) + " DIRHAMS";
      Normalize(if cents > 0 then whole + (" ET " + ChunkWords(cents) + " CENTIMES") else whole)
  }

  /** One pass of the integer loop: the trimmed words of a non-zero chunk and its scale word. */
  method ScaleChunk(chunk: nat, scaleIndex: nat) returns (chunkWords: string)
    requires 0 < chunk < 1000
    ensures chunkWords == ScaledChunk(chunk, scaleIndex)
  {
    chunkWords := ConvertChunk(chunk);
    chunkWords := Trim(chunkWords);
    var scale := ScaleWord(scaleIndex);
    if scale == "MILLE" && chunk == 1 {
      chunkWords := scale;
    } else if scale != "" {
      chunkWords := chunkWords + " " + scale
        + (if chunk > 1 && (scale == "MILLION" || scale == "MILLIARD") then "S" else "");
    }
  }

  /** The integer loop: peels base-1000 chunks off `dirhams`, each chunk's words in front of those collected. */
  method CollectParts(dirhams: nat) returns (parts: seq<string>)
    ensures parts == Parts(dirhams, 0)
  {
    var tempNum := dirhams;
    parts := [];
    var scaleIndex := 0;
    ghost var all := Parts(dirhams, 0);
    assert all + parts == all;
    while tempNum > 0
      invariant Parts(tempNum, scaleIndex) + parts == all
      decreases tempNum
    {
      parts := PeelChunk(tempNum, scaleIndex, parts);
      tempNum := tempNum / 1000;
      scaleIndex := scaleIndex + 1;
    }
    assert Parts(tempNum, scaleIndex) == [];
    assert [] + parts == parts;
  }

  /** One round of the integer loop: the words of the lowest chunk, when it is not 0, go in front. */
  method PeelChunk(tempNum: nat, scaleIndex: nat, parts: seq<string>) returns (newParts: seq<string>)
    requires tempNum > 0
    ensures Parts(tempNum / 1000, scaleIndex + 1) + newParts == Parts(tempNum, scaleIndex) + parts
  {
    var chunk := tempNum % 1000;
    var found: seq<string> := [];
    if chunk > 0 {
      var chunkWords := ScaleChunk(chunk, scaleIndex);
      found := [chunkWords];
    }
    PartsStep(tempNum, scaleIndex, found, parts);
    newParts := found + parts;
  }

  /** The words of the whole dirhams: the collected parts joined, rewritten once and trimmed. */
  method IntegerPart(dirhams: nat) returns (words: string)
    requires dirhams > 0
    ensures words == IntegerWords(dirhams)
  {
    var parts := CollectParts(dirhams);
    words := Trim(ReplaceFirst(Join(parts, " "), "UN MILLE", "MILLE"));
  }

  /**
   * numberToWordsFr: the integer loop peels base-1000 chunks off the whole
   * dirhams, least significant first, putting each chunk's words in front
   * of the parts collected so far; the result is the amount in words.
   */
  method NumberToWordsFr(dirhams: nat, cents: nat) returns (words: string)
    requires cents <= 100
    ensures words == AmountWords(dirhams, cents)
  {
    if dirhams == 0 && cents == 0 {
      return "ZÉRO DIRHAMS";
    }
    if dirhams == 0 {
      words := "ZÉRO";
    } else {
      words := IntegerPart(dirhams);
    }
    words := words + " DIRHAMS";
    if cents > 0 {
      var centWords := ConvertChunk(cents);
      words := words + (" ET " + centWords + " CENTIMES");
    }
    words := Normalize(words);
  }
}

/** What numberToWordsFr's result looks like, and where its one rewrite goes wrong. */
module AmountInWordsFacts {
  import opened Wrappers
  import opened JsString
  import opened AmountInWords

  // ---------------------------------------------------------------------
  // Single spacing survives slicing, concatenation and the rewrite
  // ---------------------------------------------------------------------

  lemma SingleSpacedSlice(s: string, i: nat, j: nat)
    requires SingleSpaced(s) && i <= j <= |s|
    ensures SingleSpaced(s[i..j])
  {
    var t := s[i..j];
    assert forall k :: 0 <= k < |t| ==> t[k] == s[i + k];
  }

  lemma SingleSpacedConcat(a: string, b: string)
    requires SingleSpaced(a) && SingleSpaced(b)
    requires a == [] || b == [] || a[|a| - 1] != ' ' || b[0] != ' '
    ensures SingleSpaced(a + b)
  {
    var x := a + b;
    forall i | 0 <= i < |x| - 1 ensures !(x[i] == ' ' && x[i + 1] == ' ') {
      if i + 1 < |a| {
        assert x[i] == a[i] && x[i + 1] == a[i + 1];
      } else if i + 1 == |a| {
        assert x[i] == a[|a| - 1] && x[i + 1] == b[0];
      } else {
        assert x[i] == b[i - |a|] && x[i + 1] == b[i + 1 - |a|];
      }
    }
  }

  /** A phrase put between the two ends of another keeps it a phrase. */
  lemma SpliceWellSpaced(before: string, rep: string, after: string)
    requires SingleSpaced(before) && SingleSpaced(after) && WellSpaced(rep)
    requires before == [] || before[0] != ' '
    requires after == [] || after[|after| - 1] != ' '
    ensures WellSpaced(before + rep + after)
  {
    SingleSpacedConcat(before, rep);
    SingleSpacedConcat(before + rep, after);
    var t := before + rep + after;
    if before == [] {
      assert t[0] == rep[0];
    } else {
      assert t[0] == before[0];
    }
    if after == [] {
      assert t[|t| - 1] == rep[|rep| - 1];
    } else {
      assert t[|t| - 1] == after[|after| - 1];
    }
  }

  /** Replacing a well-spaced piece by another keeps a phrase well spaced. */
  lemma ReplaceKeepsWellSpaced(s: string, pat: string, rep: string)
    requires WellSpaced(s) && WellSpaced(pat) && WellSpaced(rep)
    ensures WellSpaced(ReplaceFirst(s, pat, rep))
  {
    var i := ReplaceFirstSplit(s, pat, rep);
    if i >= 0 {
      var before, after := s[..i], s[i + |pat|..];
      assert ReplaceFirst(s, pat, rep) == before + rep + after;
      SingleSpacedSlice(s, 0, i);
      SingleSpacedSlice(s, i + |pat|, |s|);
      assert before == [] || before[0] == s[0];
      assert after == [] || after[|after| - 1] == s[|s| - 1];
      SpliceWellSpaced(before, rep, after);
    }
  }

  /** Parts that are phrases, joined by spaces, form a phrase. */
  lemma {:induction false} JoinWellSpaced(parts: seq<string>)
    requires parts != [] && forall k :: 0 <= k < |parts| ==> WellSpaced(parts[k])
    ensures WellSpaced(Join(parts, " "))
  {
    if |parts| > 1 {
      JoinWellSpaced(parts[1..]);
      WellSpacedJoin(parts[0], Join(parts[1..], " "));
    }
  }

  // ---------------------------------------------------------------------
  // The integer part
  // ---------------------------------------------------------------------

  /** A chunk with its scale word reads as a phrase. */
  lemma ScaledChunkWellSpaced(chunk: nat, index: nat)
    requires 0 < chunk < 1000
    ensures WellSpaced(ScaledChunk(chunk, index))
  {
    ChunkWordsWellSpaced(chunk);
    ScaledChunkRules(chunk, index);
    RewritePiecesWellSpaced();
    var words := ChunkWords(chunk);
    if index == 1 && chunk > 1 {
      WellSpacedJoin(words, "MILLE");
      ConcatAssociative(words, " ", "MILLE");
    } else if index == 2 || index == 3 {
      var scale := ScaleWord(index);
      assert scale == if index == 2 then "MILLION" else "MILLIARD";
      ScaleWellSpaced(index);
      WellSpacedJoin(words, scale);
      if chunk > 1 {
        WellSpacedConcat(words + " " + scale, "S");
      } else {
        assert words + " " + scale + "" == words + " " + scale;
      }
    }
  }

  lemma ScaleWellSpaced(index: nat)
    requires 1 <= index < 4
    ensures WellSpaced(ScaleWord(index))
  {
  }

  /** A positive number has at least one non-zero chunk, and each reads as a phrase. */
  lemma {:induction false} PartsWellSpaced(n: nat, index: nat)
    decreases n
    ensures n > 0 <==> Parts(n, index) != []
    ensures forall k :: 0 <= k < |Parts(n, index)| ==> WellSpaced(Parts(n, index)[k])
  {
    if n > 0 {
      PartsWellSpaced(n / 1000, index + 1);
      var higher := Parts(n / 1000, index + 1);
      if n % 1000 > 0 {
        ScaledChunkWellSpaced(n % 1000, index);
        assert Parts(n, index) == higher + [ScaledChunk(n % 1000, index)];
      } else {
        assert Parts(n, index) == higher;
      }
    }
  }

  /** The source's rewrite of "UN MILLE" and its trim keep a phrase a phrase. */
  lemma RewriteKeepsWellSpaced(s: string)
    requires WellSpaced(s)
    ensures WellSpaced(Trim(ReplaceFirst(s, "UN MILLE", "MILLE")))
  {
    var pat, rep := "UN MILLE", "MILLE";
    assert WellSpaced(pat) && WellSpaced(rep);
    ReplaceKeepsWellSpaced(s, pat, rep);
    WellSpacedTrimmed(ReplaceFirst(s, pat, rep));
  }

  /** The chunks of a positive number, joined by spaces, read as a phrase. */
  lemma JoinedPartsWellSpaced(n: nat, index: nat)
    requires n > 0
    ensures WellSpaced(Join(Parts(n, index), " "))
  {
    PartsWellSpaced(n, index);
    JoinWellSpaced(Parts(n, index));
  }

  /** The whole dirhams always read as a phrase. */
  lemma IntegerWordsWellSpaced(dirhams: nat)
    ensures WellSpaced(IntegerWords(dirhams))
  {
    if dirhams > 0 {
      JoinedPartsWellSpaced(dirhams, 0);
      RewriteKeepsWellSpaced(Join(Parts(dirhams, 0), " "));
    }
  }

  // ---------------------------------------------------------------------
  // The whole result
  // ---------------------------------------------------------------------

  lemma DirhamsWellSpaced(integer: string)
    requires WellSpaced(integer)
    ensures WellSpaced(integer + " DIRHAMS")
  {
    var word := "DIRHAMS";
    assert WellSpaced(word);
    WellSpacedJoin(integer, word);
    assert integer + " DIRHAMS" == integer + " " + word;
  }

  lemma CentimesWellSpaced(whole: string, centWords: string)
    requires WellSpaced(whole) && WellSpaced(centWords)
    ensures WellSpaced(whole + (" ET " + centWords + " CENTIMES"))
  {
    var word := "CENTIMES";
    assert WellSpaced(word);
    WellSpacedEt(whole, centWords);
    WellSpacedJoin(whole + " ET " + centWords, word);
    assert whole + (" ET " + centWords + " CENTIMES") == whole + " ET " + centWords + " " + word;
  }

  /**
   * The result is the words of the dirhams, then "DIRHAMS", then, only when
   * there are cents, "ET", the words of the cents and "CENTIMES"; it has no
   * space at either end and never two in a row (the final collapse and trim
   * have nothing left to do).
   */
  lemma AmountWordsShape(dirhams: nat, cents: nat)
    requires cents <= 100
    ensures AmountWords(dirhams, cents) ==
      if cents > 0 then (IntegerWords(dirhams) + " DIRHAMS") + (" ET " + ChunkWords(cents) + " CENTIMES")
      else IntegerWords(dirhams) + " DIRHAMS"
    ensures WellSpaced(AmountWords(dirhams, cents))
  {
    var integer := IntegerWords(dirhams);
    IntegerWordsWellSpaced(dirhams);
    var whole := integer + " DIRHAMS";
    DirhamsWellSpaced(integer);
    if dirhams == 0 && cents == 0 {
      ZeroAmountShape();
    } else if cents > 0 {
      var centWords := ChunkWords(cents);
      var full := whole + (" ET " + centWords + " CENTIMES");
      assert AmountWords(dirhams, cents) == Normalize(full);
      ChunkWordsWellSpaced(cents);
      CentimesWellSpaced(whole, centWords);
      NormalizeOfWellSpaced(full);
    } else {
      assert AmountWords(dirhams, cents) == Normalize(whole);
      NormalizeOfWellSpaced(whole);
    }
  }

  /** The early return for zero reads as the integer words of 0 followed by " DIRHAMS". */
  lemma ZeroAmountShape()
    ensures AmountWords(0, 0) == IntegerWords(0) + " DIRHAMS"
  {
    assert IntegerWords(0) == "ZÉRO";
    assert "ZÉRO" + " DIRHAMS" == "ZÉRO DIRHAMS";
  }

  /**
   * Every result names the dirhams: it ends with "DIRHAMS" when there are
   * no cents, and with "CENTIMES", after "DIRHAMS ET", when there are.
   */
  lemma AmountWordsEndings(dirhams: nat, cents: nat)
    requires cents <= 100
    ensures var r := AmountWords(dirhams, cents);
      && |r| > 8
      && (cents == 0 ==> r[|r| - 8..] == " DIRHAMS")
      && (cents > 0 ==> r[|r| - 9..] == " CENTIMES" && Includes(r, " DIRHAMS ET "))
  {
    AmountWordsShape(dirhams, cents);
    IntegerWordsWellSpaced(dirhams);
    EndingsOfShape(AmountWords(dirhams, cents), IntegerWords(dirhams), cents, ChunkWords(cents));
  }

  lemma EndingsOfShape(r: string, integer: string, cents: nat, centWords: string)
    requires integer != []
    requires r == if cents > 0 then (integer + " DIRHAMS") + (" ET " + centWords + " CENTIMES")
      else integer + " DIRHAMS"
    ensures |r| > 8
    ensures cents == 0 ==> r[|r| - 8..] == " DIRHAMS"
    ensures cents > 0 ==> r[|r| - 9..] == " CENTIMES" && Includes(r, " DIRHAMS ET ")
  {
    if cents > 0 {
      CentsSuffix(integer, centWords);
    } else {
      DirhamsSuffix(integer);
    }
  }

  lemma DirhamsSuffix(integer: string)
    requires integer != []
    ensures var r := integer + " DIRHAMS";
      |r| > 8 && r[|r| - 8..] == " DIRHAMS"
  {
    var word := " DIRHAMS";
    var r := integer + word;
    assert |word| == 8;
    assert r[|integer|..] == word;
  }

  lemma CentsSuffix(integer: string, centWords: string)
    requires integer != []
    ensures var r := (integer + " DIRHAMS") + (" ET " + centWords + " CENTIMES");
      |r| > 9 && r[|r| - 9..] == " CENTIMES" && Includes(r, " DIRHAMS ET ")
  {
    var r := (integer + " DIRHAMS") + (" ET " + centWords + " CENTIMES");
    var mark := " DIRHAMS ET ";
    assert r == integer + mark + (centWords + " CENTIMES");
    assert OccursAt(r, mark, |integer|) by {
      assert r[|integer|..|integer| + |mark|] == mark;
    }
    IncludesIff(r, mark);
  }

  /** Nothing at all reads "ZÉRO DIRHAMS". */
  lemma ZeroAmount()
    ensures AmountWords(0, 0) == "ZÉRO DIRHAMS"
  {
  }

  // ---------------------------------------------------------------------
  // The rewrite of "UN MILLE"
  // ---------------------------------------------------------------------

  /**
   * The words of the whole dirhams without the rewrite: a thousands chunk
   * of 1 already reads "MILLE", so the rewrite has nothing left to do but
   * cut the "UN" off larger chunks that end in one.
   */
  function IntegerWordsIntended(dirhams: nat): string
  {
    if dirhams == 0 then "ZÉRO" else Trim(Join(Parts(dirhams, 0), " "))
  }

  /** The rewrite changes the words exactly when the joined chunks hold "UN MILLE". */
  lemma RewriteChangesExactlyWhen(dirhams: nat)
    requires dirhams > 0
    ensures IntegerWords(dirhams) == IntegerWordsIntended(dirhams)
      <==> !Includes(Join(Parts(dirhams, 0), " "), "UN MILLE")
  {
    JoinedPartsWellSpaced(dirhams, 0);
    RewriteChangesIff(Join(Parts(dirhams, 0), " "));
  }

  /** On a phrase, the rewrite and its trim change something exactly when "UN MILLE" occurs. */
  lemma RewriteChangesIff(s: string)
    requires WellSpaced(s)
    ensures Trim(ReplaceFirst(s, "UN MILLE", "MILLE")) == Trim(s) <==> !Includes(s, "UN MILLE")
  {
    var pat, rep := "UN MILLE", "MILLE";
    RewritePiecesWellSpaced();
    ShorteningChangesIff(s, pat, rep);
  }

  /** The pattern of the rewrite and its replacement are phrases. */
  lemma RewritePiecesWellSpaced()
    ensures WellSpaced("UN MILLE") && WellSpaced("MILLE")
  {
    var un, mille := "UN", "MILLE";
    assert WellSpaced(un) && WellSpaced(mille);
    WellSpacedJoin(un, mille);
    assert un + " " + mille == "UN MILLE";
  }

  /** Replacing a piece by a shorter one changes a phrase exactly when the piece occurs. */
  lemma ShorteningChangesIff(s: string, pat: string, rep: string)
    requires WellSpaced(s) && WellSpaced(pat) && WellSpaced(rep) && |rep| < |pat|
    ensures Trim(ReplaceFirst(s, pat, rep)) == Trim(s) <==> !Includes(s, pat)
  {
    WellSpacedTrimmed(s);
    var i := ReplaceFirstSplit(s, pat, rep);
    if i >= 0 {
      ReplaceKeepsWellSpaced(s, pat, rep);
      var t := ReplaceFirst(s, pat, rep);
      WellSpacedTrimmed(t);
      assert |t| < |s|;
      IncludesIff(s, pat);
    }
  }

  /**
   * Between a thousand and a million, the thousands chunk keeps all its
   * words before "MILLE" (a chunk of 1 reads "MILLE" alone), followed by
   * the words of the rest.
   */
  lemma IntendedThousands(dirhams: nat)
    requires 1000 <= dirhams < 1000000
    ensures IntegerWordsIntended(dirhams) ==
      (if dirhams / 1000 == 1 then "MILLE" else ChunkWords(dirhams / 1000) + " MILLE")
      + (if dirhams % 1000 > 0 then " " + ChunkWords(dirhams % 1000) else "")
  {
    var thousands, rest := dirhams / 1000, dirhams % 1000;
    var head := if thousands == 1 then "MILLE" else ChunkWords(thousands) + " MILLE";
    ScaledThousands(thousands);
    assert ScaledChunk(thousands, 1) == head;
    if rest > 0 {
      var low := ChunkWords(rest);
      ThousandsWithRest(dirhams);
      ConcatAssociative(head, " ", low);
    } else {
      RoundThousands(dirhams);
      assert head + "" == head;
    }
  }

  lemma ThousandsWithRest(dirhams: nat)
    requires 1000 <= dirhams < 1000000 && dirhams % 1000 > 0
    ensures IntegerWordsIntended(dirhams) == ScaledChunk(dirhams / 1000, 1) + " " + ChunkWords(dirhams % 1000)
  {
    var high, low := ScaledChunk(dirhams / 1000, 1), ChunkWords(dirhams % 1000);
    PartsOfThousands(dirhams);
    ScaledUnits(dirhams % 1000);
    ScaledChunkWellSpaced(dirhams / 1000, 1);
    ChunkWordsWellSpaced(dirhams % 1000);
    TrimJoinedPair(high, low);
  }

  lemma RoundThousands(dirhams: nat)
    requires 1000 <= dirhams < 1000000 && dirhams % 1000 == 0
    ensures IntegerWordsIntended(dirhams) == ScaledChunk(dirhams / 1000, 1)
  {
    PartsOfThousands(dirhams);
    ScaledChunkWellSpaced(dirhams / 1000, 1);
    TrimJoinedOne(ScaledChunk(dirhams / 1000, 1));
  }

  lemma TrimJoinedOne(a: string)
    requires WellSpaced(a)
    ensures Trim(Join([a] + [], " ")) == a
    ensures Trim(Join([a], " ")) == a
  {
    assert [a] + [] == [a];
    WellSpacedTrimmed(a);
  }

  lemma TrimJoinedPair(a: string, b: string)
    requires WellSpaced(a) && WellSpaced(b)
    ensures Trim(Join([a] + [b], " ")) == a + " " + b
  {
    assert [a] + [b] == [a, b];
    assert Join([a, b], " ") == a + " " + b;
    WellSpacedJoin(a, b);
    WellSpacedTrimmed(a + " " + b);
  }

  lemma PartsOfThousands(dirhams: nat)
    requires 1000 <= dirhams < 1000000
    ensures Parts(dirhams, 0) ==
      [ScaledChunk(dirhams / 1000, 1)] + (if dirhams % 1000 > 0 then [ScaledChunk(dirhams % 1000, 0)] else [])
  {
    var thousands := dirhams / 1000;
    assert 1 <= thousands < 1000;
    assert thousands / 1000 == 0;
    assert Parts(thousands, 1) == [ScaledChunk(thousands, 1)];
  }

  lemma ScaledThousands(thousands: nat)
    requires 1 <= thousands < 1000
    ensures ScaledChunk(thousands, 1) == if thousands == 1 then "MILLE" else ChunkWords(thousands) + " MILLE"
  {
    ChunkWordsWellSpaced(thousands);
    assert ScaleWord(1) == "MILLE";
  }

  lemma ScaledUnits(rest: nat)
    requires 0 < rest < 1000
    ensures ScaledChunk(rest, 0) == ChunkWords(rest)
  {
    ChunkWordsWellSpaced(rest);
  }

  /** The rewrite is applied to the words without it. */
  lemma RewriteOfIntended(dirhams: nat)
    requires dirhams > 0
    ensures IntegerWordsIntended(dirhams) == Join(Parts(dirhams, 0), " ")
    ensures IntegerWords(dirhams) == Trim(ReplaceFirst(IntegerWordsIntended(dirhams), "UN MILLE", "MILLE"))
  {
    JoinedPartsWellSpaced(dirhams, 0);
    WellSpacedTrimmed(Join(Parts(dirhams, 0), " "));
  }

  /**
   * A round number of thousands whose chunk ends in "UN" (and holds no
   * other U) loses that "UN": 21000 reads "VINGT ET MILLE".
   */
  lemma ThousandsEndingInUn(dirhams: nat, pre: string)
    requires 1000 <= dirhams < 1000000 && dirhams % 1000 == 0 && dirhams / 1000 > 1
    requires ChunkWords(dirhams / 1000) == pre + "UN"
    requires forall k :: 0 <= k < |pre| ==> pre[k] != 'U'
    ensures IntegerWordsIntended(dirhams) == pre + "UN MILLE"
    ensures IntegerWords(dirhams) == pre + "MILLE"
  {
    var pat, rep := "UN MILLE", "MILLE";
    var words := pre + pat;
    IntendedThousands(dirhams);
    assert IntegerWordsIntended(dirhams) == words by {
      assert "UN" + " MILLE" == pat;
      ConcatAssociative(pre, "UN", " MILLE");
      assert pre + "UN" + " MILLE" + "" == pre + "UN" + " MILLE";
    }
    RewriteOfIntended(dirhams);
    assert Join(Parts(dirhams, 0), " ") == words;
    assert IntegerWords(dirhams) == Trim(ReplaceFirst(words, pat, rep));
    if pre != [] {
      JoinedPartsWellSpaced(dirhams, 0);
      assert pre[0] == words[0] && WordChar(words[0]);
      WordCharNotWhitespace(words[0]);
    }
    assert pat[0] == 'U' && rep[0] == 'M' && rep[|rep| - 1] == 'E';
    WordCharNotWhitespace('M');
    WordCharNotWhitespace('E');
    TrimReplaceAfterPrefix(pre, pat, rep);
  }

  /** Words without a U are left alone by the rewrite. */
  lemma RewriteWithoutU(dirhams: nat)
    requires dirhams > 0
    requires forall k :: 0 <= k < |IntegerWordsIntended(dirhams)| ==> IntegerWordsIntended(dirhams)[k] != 'U'
    ensures IntegerWords(dirhams) == IntegerWordsIntended(dirhams)
  {
    var words, pat, rep := IntegerWordsIntended(dirhams), "UN MILLE", "MILLE";
    RewriteOfIntended(dirhams);
    ReplaceFirstSkips(words, [], pat, rep);
    assert words + [] == words;
    JoinedPartsWellSpaced(dirhams, 0);
    WellSpacedTrimmed(words);
  }

  lemma HundredOneThousandCut()
    ensures IntegerWordsIntended(101000) == "CENT UN MILLE"
    ensures IntegerWords(101000) == "CENT MILLE"
  {
    ThousandsExamplesChunks(101);
    ThousandsExamplesSpelling();
    ThousandsEndingInUn(101000, "CENT ");
  }

  lemma HundredThousandKept()
    ensures IntegerWordsIntended(100000) == "CENT MILLE"
    ensures IntegerWords(100000) == "CENT MILLE"
  {
    ThousandsExamplesChunks(100);
    ThousandsExamplesSpelling();
    IntendedThousands(100000);
    RewriteWithoutU(100000);
  }

  lemma TwentyOneThousandCut()
    ensures IntegerWordsIntended(21000) == "VINGT ET UN MILLE"
    ensures IntegerWords(21000) == "VINGT ET MILLE"
  {
    ThousandsExamplesChunks(21);
    ThousandsExamplesSpelling();
    ThousandsEndingInUn(21000, "VINGT ET ");
  }

  /** How the words of the 100000, 101000 and 21000 examples are spelled out of their pieces. */
  lemma ThousandsExamplesSpelling()
    ensures "CENT " + "UN" == "CENT UN" && "VINGT ET " + "UN" == "VINGT ET UN"
    ensures "CENT " + "UN MILLE" == "CENT UN MILLE" && "CENT " + "MILLE" == "CENT MILLE"
    ensures "CENT" + " MILLE" + "" == "CENT MILLE"
    ensures "VINGT ET " + "UN MILLE" == "VINGT ET UN MILLE" && "VINGT ET " + "MILLE" == "VINGT ET MILLE"
    ensures "VINGT ET MILLE" + " DIRHAMS" == "VINGT ET MILLE DIRHAMS"
    ensures forall k :: 0 <= k < |"CENT MILLE"| ==> "CENT MILLE"[k] != 'U'
  {
  }

  /**
   * As written, two different amounts get the same words: 101000 and
   * 100000 both read "CENT MILLE DIRHAMS", with or without cents; without
   * the rewrite their words differ.
   */
  lemma RewriteConfusesAmounts(cents: nat)
    requires cents <= 100
    ensures AmountWords(101000, cents) == AmountWords(100000, cents)
    ensures IntegerWordsIntended(101000) != IntegerWordsIntended(100000)
  {
    HundredOneThousandCut();
    HundredThousandKept();
  }

  /** As written, 21000 reads "VINGT ET MILLE DIRHAMS". */
  lemma TwentyOneThousandAmount()
    ensures AmountWords(21000, 0) == "VINGT ET MILLE DIRHAMS"
    ensures IntegerWordsIntended(21000) == "VINGT ET UN MILLE"
  {
    TwentyOneThousandCut();
    ThousandsExamplesSpelling();
    AmountWordsShape(21000, 0);
  }

  // ---------------------------------------------------------------------
  // convertChunk against its tables
  // ---------------------------------------------------------------------

  /**
   * Below one hundred: nothing for 0, the units and teens tables, the
   * plural "QUATRE-VINGTS" for 80 alone, the seventies and nineties built
   * on the teens ("ET" only for 71), and "ET UN" for 21 to 61.
   */
  lemma ChunkWordsBelowHundred(n: nat)
    requires n < 100
    ensures n == 0 ==> ChunkWords(n) == ""
    ensures 1 <= n < 10 ==> ChunkWords(n) == Units[n]
    ensures 10 <= n < 20 ==> ChunkWords(n) == Teens[n - 10]
    ensures n == 80 ==> ChunkWords(n) == "QUATRE-VINGTS"
    ensures 81 <= n < 90 ==> ChunkWords(n) == "QUATRE-VINGT-" + Units[n - 80]
    ensures n == 71 ==> ChunkWords(n) == "SOIXANTE ET ONZE"
    ensures 70 <= n < 80 && n != 71 ==> ChunkWords(n) == "SOIXANTE-" + Teens[n - 70]
    ensures 90 <= n < 100 ==> ChunkWords(n) == "QUATRE-VINGT-" + Teens[n - 90]
    ensures 20 <= n < 70 && n % 10 == 0 ==> ChunkWords(n) == Tens[n / 10]
    ensures 20 <= n < 70 && n % 10 == 1 ==> ChunkWords(n) == Tens[n / 10] + " ET UN"
    ensures 20 <= n < 70 && n % 10 > 1 ==> ChunkWords(n) == Tens[n / 10] + "-" + Units[n % 10]
  {
    if 20 <= n < 70 {
      PlainTens(n);
    } else if 80 <= n < 90 {
      Eighties(n);
    } else if 70 <= n {
      SeventiesAndNineties(n);
    }
  }

  /** 20 to 69: the tens word, then "ET UN", "-<unit>" or nothing. */
  lemma PlainTens(n: nat)
    requires 20 <= n < 70
    ensures n % 10 == 0 ==> ChunkWords(n) == Tens[n / 10]
    ensures n % 10 == 1 ==> ChunkWords(n) == Tens[n / 10] + " ET UN"
    ensures n % 10 > 1 ==> ChunkWords(n) == Tens[n / 10] + "-" + Units[n % 10]
  {
    var ten, unit := n / 10, n % 10;
    assert 2 <= ten <= 6 && unit < 10;
    assert ChunkWords(n) == BelowHundred(n);
    assert ChunkWords(n) == Tens[ten] + (if unit > 0 then (if unit == 1 then " ET " else "-") + Units[unit] else "");
    if unit == 1 {
      assert Tens[ten] + (" ET " + Units[1]) == Tens[ten] + " ET UN";
    } else if unit > 1 {
      assert Tens[ten] + ("-" + Units[unit]) == Tens[ten] + "-" + Units[unit];
    } else {
      assert Tens[ten] + "" == Tens[ten];
    }
  }

  /** 80 to 89: "QUATRE-VINGTS" alone, "QUATRE-VINGT-<unit>" otherwise. */
  lemma Eighties(n: nat)
    requires 80 <= n < 90
    ensures n == 80 ==> ChunkWords(n) == "QUATRE-VINGTS"
    ensures n > 80 ==> ChunkWords(n) == "QUATRE-VINGT-" + Units[n - 80]
  {
    var unit := n % 10;
    assert unit == n - 80;
    assert ChunkWords(n) == Tens[8] + (if unit == 0 then "S" else "-" + Units[unit]);
    if unit > 0 {
      assert Tens[8] + ("-" + Units[unit]) == "QUATRE-VINGT-" + Units[unit];
    }
  }

  /** 70 to 79 and 90 to 99: the tens below followed by a teen, "ET" only for 71. */
  lemma SeventiesAndNineties(n: nat)
    requires 70 <= n < 80 || 90 <= n < 100
    ensures n == 71 ==> ChunkWords(n) == "SOIXANTE ET ONZE"
    ensures 70 <= n < 80 && n != 71 ==> ChunkWords(n) == "SOIXANTE-" + Teens[n - 70]
    ensures 90 <= n < 100 ==> ChunkWords(n) == "QUATRE-VINGT-" + Teens[n - 90]
  {
    var ten, unit := n / 10, n % 10;
    assert ChunkWords(n) == Tens[ten - 1] + (if ten == 7 && unit == 1 then " ET " else "-") + Teens[unit];
    if ten == 7 {
      assert unit == n - 70;
    } else {
      assert unit == n - 90;
    }
  }

  /**
   * From one hundred: "CENT" alone for a hundreds digit of 1, "<digit>
   * CENT" above it, an "S" only when a digit above 1 has nothing after
   * it, and otherwise the words of the last two digits after one space.
   */
  lemma ChunkWordsHundreds(n: nat)
    requires 100 <= n < 1000
    ensures n / 100 == 1 ==>
      ChunkWords(n) == "CENT" + (if n % 100 > 0 then " " + ChunkWords(n % 100) else "")
    ensures n / 100 > 1 && n % 100 == 0 ==> ChunkWords(n) == Units[n / 100] + " CENTS"
    ensures n / 100 > 1 && n % 100 > 0 ==> ChunkWords(n) == Units[n / 100] + " CENT " + ChunkWords(n % 100)
  {
    var h, rest := n / 100, n % 100;
    assert 1 <= h < 10 && rest < 100;
    var tail := BelowHundred(rest);
    assert ChunkWords(rest) == tail;
    assert ChunkWords(n) == HundredsWords(h, rest) + (if rest > 0 then " " + tail else "");
    if h == 1 {
      assert HundredsWords(h, rest) == "CENT";
    } else if rest == 0 {
      PluralHundreds(h);
    } else {
      HundredsBeforeRest(h, rest, tail);
    }
  }

  /** "<digit> CENTS" for a round number of hundreds above one hundred. */
  lemma PluralHundreds(h: nat)
    requires 1 < h < 10
    ensures HundredsWords(h, 0) + "" == Units[h] + " CENTS"
  {
    var u := Units[h];
    assert HundredsWords(h, 0) == (u + " ") + "CENT" + "S";
    ConcatAssociative(u, " ", "CENT");
    ConcatAssociative(u, " " + "CENT", "S");
    assert " " + "CENT" + "S" == " CENTS";
  }

  /** "<digit> CENT" and then the rest, one space between. */
  lemma HundredsBeforeRest(h: nat, rest: nat, tail: string)
    requires 1 < h < 10 && rest > 0
    ensures HundredsWords(h, rest) + (" " + tail) == Units[h] + " CENT " + tail
  {
    var u := Units[h];
    assert HundredsWords(h, rest) == u + " CENT" by {
      assert HundredsWords(h, rest) == (u + " ") + "CENT" + "";
      ConcatAssociative(u, " ", "CENT");
    }
    ConcatAssociative(u, " CENT", " " + tail);
    ConcatAssociative(" CENT", " ", tail);
    assert " CENT" + " " == " CENT ";
    ConcatAssociative(u, " CENT ", tail);
  }

  /**
   * One chunk with its scale: a lone 1 in the thousands is "MILLE"; any
   * other thousands chunk is followed by "MILLE"; millions and milliards
   * take an "S" above 1; the units chunk, and any chunk past the
   * milliards, has no scale word.
   */
  lemma ScaledChunkRules(chunk: nat, index: nat)
    requires 0 < chunk < 1000
    ensures index == 1 && chunk == 1 ==> ScaledChunk(chunk, index) == "MILLE"
    ensures index == 1 && chunk > 1 ==> ScaledChunk(chunk, index) == ChunkWords(chunk) + " MILLE"
    ensures index == 2 ==> ScaledChunk(chunk, index) == ChunkWords(chunk) + " " + "MILLION" + (if chunk > 1 then "S" else "")
    ensures index == 3 ==> ScaledChunk(chunk, index) == ChunkWords(chunk) + " " + "MILLIARD" + (if chunk > 1 then "S" else "")
    ensures index == 0 || index > 3 ==> ScaledChunk(chunk, index) == ChunkWords(chunk)
  {
    if index == 0 {
      ScaledUnits(chunk);
    } else if index == 1 {
      ScaledThousands(chunk);
    } else if index == 2 {
      ScaledLarge(chunk, index, "MILLION");
    } else if index == 3 {
      ScaledLarge(chunk, index, "MILLIARD");
    } else {
      ScaledBeyond(chunk, index);
    }
  }

  /** Millions and milliards: the chunk, the scale word, and an "S" above 1. */
  lemma ScaledLarge(chunk: nat, index: nat, word: string)
    requires 0 < chunk < 1000 && 2 <= index <= 3
    requires word == (if index == 2 then "MILLION" else "MILLIARD")
    ensures ScaledChunk(chunk, index) == ChunkWords(chunk) + " " + word + (if chunk > 1 then "S" else "")
  {
    ChunkWordsWellSpaced(chunk);
    assert ScaleWord(index) == word;
    assert word != "MILLE" && word != "";
  }

  /** Past the milliards no scale word is written. */
  lemma ScaledBeyond(chunk: nat, index: nat)
    requires 0 < chunk < 1000 && index > 3
    ensures ScaledChunk(chunk, index) == ChunkWords(chunk)
  {
    ChunkWordsWellSpaced(chunk);
  }

  /** A zero chunk contributes no part: the parts are those of the chunks above it. */
  lemma {:induction false} PartsSkipZeroChunk(n: nat, index: nat)
    requires n % 1000 == 0
    ensures Parts(n, index) == Parts(n / 1000, index + 1)
  {
    if n > 0 {
      assert Parts(n, index) == Parts(n / 1000, index + 1) + [];
    }
  }

  /** At most one part per base-1000 digit, and at least one for a non-zero amount. */
  lemma {:induction false} PartsCount(n: nat, index: nat)
    decreases n
    ensures |Parts(n, index)| <= Digits1000(n)
    ensures n > 0 ==> |Parts(n, index)| >= 1
  {
    if n > 0 {
      PartsCount(n / 1000, index + 1);
      if n % 1000 == 0 {
        assert n / 1000 > 0;
      }
    }
  }

  /** How many base-1000 digits `n` has. */
  function Digits1000(n: nat): nat
    decreases n
  {
    if n == 0 then 0 else 1 + Digits1000(n / 1000)
  }

  /** The chunk words of the 100000, 101000 and 21000 examples: CENT, CENT UN and VINGT ET UN. */
  lemma ThousandsExamplesChunks(n: nat)
    requires n < 1000
    ensures n == 21 ==> ChunkWords(n) == "VINGT ET UN"
    ensures n == 100 ==> ChunkWords(n) == "CENT"
    ensures n == 101 ==> ChunkWords(n) == "CENT UN"
  {
  }
}
