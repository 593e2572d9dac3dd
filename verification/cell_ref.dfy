/**
 * The address codec: the 26-letter column alphabet, `indexOf` over it, and
 * `parseCell`, which splits a reference such as "C3" into column and row.
 */
module CellRef {
  import opened Wrappers
  import opened Errors
  import Decimal

  predicate IsUpper(c: char) {
    'A' <= c <= 'Z'
  }

  predicate AllUpper(s: string) {
    forall i :: 0 <= i < |s| ==> IsUpper(s[i])
  }

  /** `alphabet`: entry i is the one-letter string whose character code is 65 + i. */
  function Alphabet(): (letters: seq<string>)
    ensures |letters| == 26
    ensures forall i :: 0 <= i < 26 ==> |letters[i]| == 1 && letters[i][0] as int == 65 + i
  {
    seq(26, i requires 0 <= i < 26 => [(i + 65) as char])
  }

  /** A parsed cell reference; `letter` is `None` where the program holds `undefined`. */
  datatype Cell = Cell(col: int, letter: Option<string>, row: nat)

  /** `Array.prototype.indexOf`: the first position holding `x`, or -1. */
  function IndexOf<T(==)>(xs: seq<T>, x: T): (r: int)
    ensures -1 <= r < |xs|
    ensures r == -1 <==> x !in xs
    ensures r >= 0 ==> xs[r] == x
    ensures forall j :: 0 <= j < r ==> xs[j] != x
  {
    if |xs| == 0 then -1
    else if xs[0] == x then 0
    else
      var k := IndexOf(xs[1..], x);
      if k < 0 then -1 else k + 1
  }

  /**
   * `alphabet.indexOf(letter) + 1`: the 1-based column of a single capital
   * letter, and 0 for anything else (several letters included). The closed
   * form is shown equal to the lookup by `ColumnIsAlphabetIndex`.
   */
  function ColumnOf(letter: string): (col: int)
    ensures 0 <= col <= 26
  {
    if |letter| == 1 && IsUpper(letter[0]) then letter[0] as int - 64 else 0
  }

  /** Where a string sits in the alphabet, if anywhere. */
  lemma AlphabetIndex(letter: string)
    ensures |letter| == 1 && IsUpper(letter[0]) ==>
      IndexOf(Alphabet(), letter) == letter[0] as int - 65
    ensures !(|letter| == 1 && IsUpper(letter[0])) ==> IndexOf(Alphabet(), letter) == -1
  {
    var letters := Alphabet();
    if |letter| == 1 && IsUpper(letter[0]) {
      var j := letter[0] as int - 65;
      assert letters[j] == letter;
      assert forall m :: 0 <= m < j ==> letters[..j][m][0] != letter[0];
    }
  }

  /**
   * The column of a letter group is its position in `alphabet` plus one: 1 to
   * 26 for a single capital letter, and 0 for anything `alphabet` lacks.
   */
  lemma ColumnIsAlphabetIndex(letter: string)
    ensures ColumnOf(letter) == IndexOf(Alphabet(), letter) + 1
    ensures ColumnOf(letter) > 0 <==> letter in Alphabet()
  {
    AlphabetIndex(letter);
  }

  /** `alphabet[i]`: the letter of column i + 1, or `undefined` off the end. */
  function AlphabetAt(i: int): (r: Option<string>)
    ensures r.Some? <==> 0 <= i < 26
    ensures r.Some? ==> |r.value| == 1 && r.value[0] as int == 65 + i
  {
    if 0 <= i < 26 then Some([(i + 65) as char]) else None
  }

  /** `AlphabetAt` reads the alphabet: entry i where there is one. */
  lemma AlphabetAtIsEntry(i: int)
    ensures 0 <= i < |Alphabet()| ==> AlphabetAt(i) == Some(Alphabet()[i])
    ensures !(0 <= i < |Alphabet()|) ==> AlphabetAt(i) == None
  {
  }

  /** The letter of column i + 1 has column i + 1. */
  lemma ColumnOfAlphabetAt(i: int)
    requires 0 <= i < 26
    ensures ColumnOf(AlphabetAt(i).value) == i + 1
  {
  }

  /** Looking up the column of a single capital letter gives that letter back. */
  lemma AlphabetRoundTrip(letter: string)
    requires |letter| == 1 && IsUpper(letter[0])
    ensures AlphabetAt(ColumnOf(letter) - 1) == Some(letter)
  {
    assert letter == [letter[0]];
  }

  /** The regular expression `^([A-Z]+)(\d+)$` matches `s` with the letters ending at `k`. */
  predicate SplitsAt(s: string, k: int) {
    0 < k < |s| && AllUpper(s[..k]) && Decimal.AllDigits(s[k..])
  }

  /** `s` matches `^([A-Z]+)(\d+)$`. */
  ghost predicate IsCellRef(s: string) {
    exists k :: SplitsAt(s, k)
  }

  /** The length of the longest run of capital letters at the start of `s`. */
  function UpperPrefix(s: string): (k: nat)
    ensures k <= |s|
    ensures forall i :: 0 <= i < k ==> IsUpper(s[i])
    ensures k < |s| ==> !IsUpper(s[k])
  {
    if |s| == 0 || !IsUpper(s[0]) then 0
    else
      UpperPrefix(s[1..]) + 1
  }

  /** At most one split point matches, since no character is both a letter and a digit. */
  lemma SplitUnique(s: string, k: int)
    requires SplitsAt(s, k)
    ensures k == UpperPrefix(s)
  {
    assert forall i :: 0 <= i < k ==> IsUpper(s[i]) by {
      forall i | 0 <= i < k ensures IsUpper(s[i]) {
        assert s[..k][i] == s[i];
      }
    }
    assert !IsUpper(s[k]) by {
      assert s[k..][0] == s[k];
    }
    var p := UpperPrefix(s);
    assert p < |s| ==> !IsUpper(s[p]);
    assert forall i :: 0 <= i < p ==> IsUpper(s[i]) by {
      forall i | 0 <= i < p ensures IsUpper(s[i]) {
        assert s[..p][i] == s[i];
      }
    }
  }

  /** The only candidate split point is the end of the leading run of letters. */
  lemma SplitsAtPrefix(s: string)
    ensures forall k :: SplitsAt(s, k) ==> k == UpperPrefix(s)
  {
    forall k | SplitsAt(s, k) ensures k == UpperPrefix(s) {
      SplitUnique(s, k);
    }
  }

  /**
   * `parseCell`: the column of the letter group (0 unless it is one letter),
   * the letter group itself, and the decimal value of the digit group; a
   * string the regular expression does not match throws.
   */
  function ParseCell(ref: string): (r: Result<Cell, Failure>)
    ensures r.Err? ==> r.error == UnmatchedRef(ref)
    ensures r.Ok? ==> r.value.letter.Some? && |r.value.letter.value| > 0
    ensures r.Ok? ==> AllUpper(r.value.letter.value) && r.value.col == ColumnOf(r.value.letter.value)
  {
    var k := UpperPrefix(ref);
    if 0 < k < |ref| && Decimal.AllDigits(ref[k..]) then
      Ok(Cell(ColumnOf(ref[..k]), Some(ref[..k]), Decimal.ValueOf(ref[k..])))
    else
      Err(UnmatchedRef(ref))
  }

  /**
   * `parseCell` succeeds exactly on the strings `^([A-Z]+)(\d+)$` matches, and
   * then its cell is read off the two groups of that match.
   */
  lemma ParseCellMatches(ref: string)
    ensures ParseCell(ref).Ok? <==> IsCellRef(ref)
    ensures forall k :: SplitsAt(ref, k) ==>
      ParseCell(ref) == Ok(Cell(ColumnOf(ref[..k]), Some(ref[..k]), Decimal.ValueOf(ref[k..])))
  {
    var k := UpperPrefix(ref);
    SplitsAtPrefix(ref);
    if 0 < k < |ref| && Decimal.AllDigits(ref[k..]) {
      assert SplitsAt(ref, k);
    }
  }

  /** A reference split into letters and digits at `k` parses into exactly those two parts. */
  lemma ParseSplit(ref: string, k: int)
    requires SplitsAt(ref, k)
    ensures ParseCell(ref) == Ok(Cell(ColumnOf(ref[..k]), Some(ref[..k]), Decimal.ValueOf(ref[k..])))
  {
    SplitUnique(ref, k);
  }

  /** `${letter}${row}`: the reference naming column `letter`, row `row`. */
  function FormatCell(letter: string, row: nat): (ref: string)
    ensures |ref| > |letter| && ref[..|letter|] == letter
    ensures Decimal.Canonical(ref[|letter|..])
  {
    letter + Decimal.Render(row)
  }

  /**
   * One capital letter followed by digits parses to the letter's position in
   * the alphabet, the letter itself, and the decimal value of the digits.
   */
  lemma ParseSingleLetter(c: char, digits: string)
    requires IsUpper(c) && |digits| > 0 && Decimal.AllDigits(digits)
    ensures ParseCell([c] + digits) == Ok(Cell(c as int - 64, Some([c]), Decimal.ValueOf(digits)))
  {
    var ref := [c] + digits;
    assert ref[..1] == [c] && ref[1..] == digits;
    assert ColumnOf([c]) == c as int - 64 by {
      assert [c][0] == c;
    }
    ParseSplit(ref, 1);
  }

  /** Formatting a letter group and a row, then parsing, recovers both. */
  lemma ParseFormatCell(letter: string, row: nat)
    requires |letter| > 0 && AllUpper(letter)
    ensures ParseCell(FormatCell(letter, row)) == Ok(Cell(ColumnOf(letter), Some(letter), row))
  {
    var ref := FormatCell(letter, row);
    var k := |letter|;
    assert ref[..k] == letter && ref[k..] == Decimal.Render(row);
    ParseSplit(ref, k);
    Decimal.ValueOfRender(row);
  }

  /**
   * Re-concatenating the parsed letter group and row reproduces the reference
   * whenever its digits carry no leading zero.
   */
  lemma FormatParseCell(ref: string, k: int)
    requires SplitsAt(ref, k) && Decimal.Canonical(ref[k..])
    ensures ParseCell(ref).Ok?
    ensures FormatCell(ParseCell(ref).value.letter.value, ParseCell(ref).value.row) == ref
  {
    Decimal.RenderValueOf(ref[k..]);
    ParseSplit(ref, k);
    assert ref == ref[..k] + ref[k..];
  }

  /**
   * A reference that is empty, does not start with a capital letter, does not
   * end with a digit, or holds any other character is refused.
   */
  lemma ParseRejects(ref: string)
    requires || |ref| == 0
             || !IsUpper(ref[0])
             || !Decimal.IsDigit(ref[|ref| - 1])
             || exists i :: 0 <= i < |ref| && !IsUpper(ref[i]) && !Decimal.IsDigit(ref[i])
    ensures ParseCell(ref) == Err(UnmatchedRef(ref))
  {
  }

  /** The references the program's comments and callers use, decoded. */
  lemma ParseCellExamples()
    ensures ParseCell("C3") == Ok(Cell(3, Some("C"), 3))
    ensures ParseCell("B3") == Ok(Cell(2, Some("B"), 3))
  {
    ParseSingleLetter('C', "3");
    assert "C3" == ['C'] + "3";
    ParseSingleLetter('B', "3");
    assert "B3" == ['B'] + "3";
  }

  /** A two-letter column parses, but its index is 0: `alphabet` only holds single letters. */
  lemma ParseTwoLetterExample()
    ensures ParseCell("AA12") == Ok(Cell(0, Some("AA"), 12))
  {
    var aa := "AA12";
    ParseSplit(aa, 2);
    assert aa[..2] == "AA" && aa[2..] == "12";
    assert Decimal.ValueOf("12") == 12 by {
      assert "12"[..1] == "1";
    }
  }

  lemma ParseRejectsExamples()
    ensures ParseCell("3B").Err? && ParseCell("").Err? && ParseCell("B3x").Err?
  {
  }
}
