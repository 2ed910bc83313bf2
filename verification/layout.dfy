/** The keyboard-layout converter: two parallel 45-character tables give a
    Cyrillic-to-Latin and a Latin-to-Cyrillic map, `Convert` remaps a query
    character by character through one of them, and two predicates classify
    query text (`IsNumeric`, `HasErrorChar`). */
module Layout {
  import opened Wrappers

  /** A Cyrillic character and the Latin character on the same physical key. */
  datatype Row = Row(cyrillic: char, latin: char)

  /** Row i of the two parallel tables: a Cyrillic character and the Latin
      character on the same physical key. Rows 0-31 are the Cyrillic letters
      in ЙЦУКЕН order, row 32 pairs the period with the slash, and the last
      twelve rows (space, digits, hyphen) map to themselves. */
  function TableRow(i: int): Row {
    match i
    case 0 => Row('й', 'q')
    case 1 => Row('ц', 'w')
    case 2 => Row('у', 'e')
    case 3 => Row('к', 'r')
    case 4 => Row('е', 't')
    case 5 => Row('н', 'y')
    case 6 => Row('г', 'u')
    case 7 => Row('ш', 'i')
    case 8 => Row('щ', 'o')
    case 9 => Row('з', 'p')
    case 10 => Row('х', '[')
    case 11 => Row('ъ', ']')
    case 12 => Row('ф', 'a')
    case 13 => Row('ы', 's')
    case 14 => Row('в', 'd')
    case 15 => Row('а', 'f')
    case 16 => Row('п', 'g')
    case 17 => Row('р', 'h')
    case 18 => Row('о', 'j')
    case 19 => Row('л', 'k')
    case 20 => Row('д', 'l')
    case 21 => Row('ж', ';')
    case 22 => Row('э', '\"')
    case 23 => Row('я', 'z')
    case 24 => Row('ч', 'x')
    case 25 => Row('с', 'c')
    case 26 => Row('м', 'v')
    case 27 => Row('и', 'b')
    case 28 => Row('т', 'n')
    case 29 => Row('ь', 'm')
    case 30 => Row('б', ',')
    case 31 => Row('ю', '.')
    case 32 => Row('.', '/')
    case 33 => Row(' ', ' ')
    case 34 => Row('0', '0')
    case 35 => Row('1', '1')
    case 36 => Row('2', '2')
    case 37 => Row('3', '3')
    case 38 => Row('4', '4')
    case 39 => Row('5', '5')
    case 40 => Row('6', '6')
    case 41 => Row('7', '7')
    case 42 => Row('8', '8')
    case 43 => Row('9', '9')
    case _ => Row('-', '-')
  }

  function CyrillicAt(i: int): char {
    TableRow(i).cyrillic
  }

  function LatinAt(i: int): char {
    TableRow(i).latin
  }

  /** The Cyrillic array of the static initialiser. */
  function Ru(): string { seq(45, CyrillicAt) }

  /** The Latin array of the static initialiser. */
  function En(): string { seq(45, LatinAt) }

  /** The row of a Cyrillic-array character, or -1. */
  function RuRow(c: char): int {
    match c
    case 'й' => 0
    case 'ц' => 1
    case 'у' => 2
    case 'к' => 3
    case 'е' => 4
    case 'н' => 5
    case 'г' => 6
    case 'ш' => 7
    case 'щ' => 8
    case 'з' => 9
    case 'х' => 10
    case 'ъ' => 11
    case 'ф' => 12
    case 'ы' => 13
    case 'в' => 14
    case 'а' => 15
    case 'п' => 16
    case 'р' => 17
    case 'о' => 18
    case 'л' => 19
    case 'д' => 20
    case 'ж' => 21
    case 'э' => 22
    case 'я' => 23
    case 'ч' => 24
    case 'с' => 25
    case 'м' => 26
    case 'и' => 27
    case 'т' => 28
    case 'ь' => 29
    case 'б' => 30
    case 'ю' => 31
    case '.' => 32
    case ' ' => 33
    case '0' => 34
    case '1' => 35
    case '2' => 36
    case '3' => 37
    case '4' => 38
    case '5' => 39
    case '6' => 40
    case '7' => 41
    case '8' => 42
    case '9' => 43
    case '-' => 44
    case _ => -1
  }

  /** The row of a Latin-array character, or -1. */
  function EnRow(c: char): int {
    match c
    case 'q' => 0
    case 'w' => 1
    case 'e' => 2
    case 'r' => 3
    case 't' => 4
    case 'y' => 5
    case 'u' => 6
    case 'i' => 7
    case 'o' => 8
    case 'p' => 9
    case '[' => 10
    case ']' => 11
    case 'a' => 12
    case 's' => 13
    case 'd' => 14
    case 'f' => 15
    case 'g' => 16
    case 'h' => 17
    case 'j' => 18
    case 'k' => 19
    case 'l' => 20
    case ';' => 21
    case '\"' => 22
    case 'z' => 23
    case 'x' => 24
    case 'c' => 25
    case 'v' => 26
    case 'b' => 27
    case 'n' => 28
    case 'm' => 29
    case ',' => 30
    case '.' => 31
    case '/' => 32
    case ' ' => 33
    case '0' => 34
    case '1' => 35
    case '2' => 36
    case '3' => 37
    case '4' => 38
    case '5' => 39
    case '6' => 40
    case '7' => 41
    case '8' => 42
    case '9' => 43
    case '-' => 44
    case _ => -1
  }

  predicate Distinct(s: string) {
    forall i, j :: 0 <= i < j < |s| ==> s[i] != s[j]
  }

  /** The static initialiser's loop: `put(keys[i], vals[i])` for i = 0, 1, ...;
      a later put of the same key would overwrite an earlier one. */
  function BuildMap(keys: string, vals: string): (m: map<char, char>)
    requires |keys| == |vals|
    ensures m.Keys == set i | 0 <= i < |keys| :: keys[i]
    decreases |keys|
  {
    if |keys| == 0 then map[]
    else BuildMap(keys[..|keys| - 1], vals[..|vals| - 1])[keys[|keys| - 1] := vals[|vals| - 1]]
  }

  /** With distinct keys every put survives: key i maps to value i. */
  lemma {:induction false} BuildMapAt(keys: string, vals: string, i: nat)
    requires |keys| == |vals| && Distinct(keys) && i < |keys|
    ensures BuildMap(keys, vals)[keys[i]] == vals[i]
    decreases |keys|
  {
    var n := |keys| - 1;
    var ks, vs := keys[..n], vals[..n];
    assert BuildMap(keys, vals) == BuildMap(ks, vs)[keys[n] := vals[n]];
    if i < n {
      assert Distinct(ks) by {
        forall a, b | 0 <= a < b < n ensures ks[a] != ks[b] {
          assert ks[a] == keys[a] && ks[b] == keys[b];
        }
      }
      BuildMapAt(ks, vs, i);
      assert ks[i] == keys[i] && vs[i] == vals[i];
      assert keys[i] != keys[n];
    }
  }

  lemma RowsHaveLength()
    ensures |Ru()| == |En()| == 45
  {
  }

  /** `RuRow` inverts the Cyrillic row. */
  lemma RuRowIndices()
    ensures forall i :: 0 <= i < 45 ==> RuRow(Ru()[i]) == i
  {
    RuRowIndicesBelow();
    RuRowIndicesAbove();
  }

  lemma RuRowIndicesBelow()
    ensures forall i :: 0 <= i < 24 ==> RuRow(Ru()[i]) == i
  {
    forall i | 0 <= i < 12 ensures RuRow(Ru()[i]) == i { }
    forall i | 12 <= i < 24 ensures RuRow(Ru()[i]) == i { }
  }

  lemma RuRowIndicesAbove()
    ensures forall i :: 24 <= i < 45 ==> RuRow(Ru()[i]) == i
  {
    forall i | 24 <= i < 35 ensures RuRow(Ru()[i]) == i { }
    forall i | 35 <= i < 45 ensures RuRow(Ru()[i]) == i { }
  }

  lemma EnRowIndices()
    ensures forall i :: 0 <= i < 45 ==> EnRow(En()[i]) == i
  {
    EnRowIndicesBelow();
    EnRowIndicesAbove();
  }

  lemma EnRowIndicesBelow()
    ensures forall i :: 0 <= i < 24 ==> EnRow(En()[i]) == i
  {
    forall i | 0 <= i < 12 ensures EnRow(En()[i]) == i { }
    forall i | 12 <= i < 24 ensures EnRow(En()[i]) == i { }
  }

  lemma EnRowIndicesAbove()
    ensures forall i :: 24 <= i < 45 ==> EnRow(En()[i]) == i
  {
    forall i | 24 <= i < 35 ensures EnRow(En()[i]) == i { }
    forall i | 35 <= i < 45 ensures EnRow(En()[i]) == i { }
  }

  lemma RowClasses()
    ensures forall i :: 0 <= i < 45 ==> IsAscii(En()[i])
    ensures forall i :: 0 <= i < 45 ==> !IsLineTerminator(Ru()[i]) && !IsErrorChar(Ru()[i])
    ensures forall i :: 0 <= i < 45 ==> (IsCyrillic(Ru()[i]) <==> i < 32)
  {
    forall i | 0 <= i < 45 ensures IsAscii(En()[i]) { }
    forall i | 0 <= i < 45 ensures !IsLineTerminator(Ru()[i]) && !IsErrorChar(Ru()[i]) { }
    forall i | 0 <= i < 45 ensures IsCyrillic(Ru()[i]) <==> i < 32 { }
  }

  lemma SharedRows()
    ensures forall i :: 32 < i < 45 ==> Ru()[i] == En()[i]
    ensures Ru()[32] == '.' && En()[32] == '/' && En()[31] == '.' && Ru()[31] == 'ю'
  {
    forall i | 32 < i < 45 ensures Ru()[i] == En()[i] { }
  }

  lemma ErrorCharsAreLatinKeys()
    ensures forall c :: IsErrorChar(c) ==> 0 <= EnRow(c) < 45 && En()[EnRow(c)] == c
  {
    forall c | IsErrorChar(c) ensures 0 <= EnRow(c) < 45 && En()[EnRow(c)] == c { }
  }

  /** Facts about the table rows, read off row by row. */
  lemma TableRows()
    ensures |Ru()| == |En()| == 45
    ensures forall i :: 0 <= i < 45 ==> RuRow(Ru()[i]) == i && EnRow(En()[i]) == i
    ensures forall i :: 0 <= i < 45 ==> IsAscii(En()[i]) && !IsLineTerminator(Ru()[i]) && !IsErrorChar(Ru()[i])
    ensures forall i :: 0 <= i < 45 ==> (IsCyrillic(Ru()[i]) <==> i < 32)
    ensures forall i :: 32 < i < 45 ==> Ru()[i] == En()[i]
    ensures Ru()[32] == '.' && En()[32] == '/' && En()[31] == '.' && Ru()[31] == 'ю'
    ensures forall c :: IsErrorChar(c) ==> 0 <= EnRow(c) < 45 && En()[EnRow(c)] == c
  {
    RowsHaveLength();
    RuRowIndices();
    EnRowIndices();
    RowClasses();
    SharedRows();
    ErrorCharsAreLatinKeys();
  }

  lemma TablesDistinct()
    ensures |Ru()| == |En()| == 45
    ensures Distinct(Ru()) && Distinct(En())
  {
    RuRowIndices();
    EnRowIndices();
    forall a, b | 0 <= a < b < 45 ensures Ru()[a] != Ru()[b] {
      assert RuRow(Ru()[a]) != RuRow(Ru()[b]);
    }
    forall a, b | 0 <= a < b < 45 ensures En()[a] != En()[b] {
      assert EnRow(En()[a]) != EnRow(En()[b]);
    }
  }

  /** `cyrillicToLatinMap`. */
  const CyrillicToLatin: map<char, char> := BuildMap(Ru(), En())

  /** `latinToCyrillicMap`. */
  const LatinToCyrillic: map<char, char> := BuildMap(En(), Ru())

  /** Each table maps entry i of its key row to entry i of the other row. */
  lemma TableEntries()
    ensures forall i :: 0 <= i < |Ru()| ==> Ru()[i] in CyrillicToLatin && CyrillicToLatin[Ru()[i]] == En()[i]
    ensures forall i :: 0 <= i < |En()| ==> En()[i] in LatinToCyrillic && LatinToCyrillic[En()[i]] == Ru()[i]
  {
    CyrillicEntries();
    LatinEntries();
  }

  lemma CyrillicEntries()
    ensures forall i :: 0 <= i < |Ru()| ==> Ru()[i] in CyrillicToLatin && CyrillicToLatin[Ru()[i]] == En()[i]
  {
    TablesDistinct();
    forall i | 0 <= i < |Ru()| ensures Ru()[i] in CyrillicToLatin && CyrillicToLatin[Ru()[i]] == En()[i] {
      BuildMapAt(Ru(), En(), i);
    }
  }

  lemma LatinEntries()
    ensures forall i :: 0 <= i < |En()| ==> En()[i] in LatinToCyrillic && LatinToCyrillic[En()[i]] == Ru()[i]
  {
    TablesDistinct();
    forall i | 0 <= i < |En()| ensures En()[i] in LatinToCyrillic && LatinToCyrillic[En()[i]] == Ru()[i] {
      BuildMapAt(En(), Ru(), i);
    }
  }

  /** The two maps are mutual inverses on their key sets. */
  lemma TablesAreInverse()
    ensures forall c :: c in CyrillicToLatin ==> CyrillicToLatin[c] in LatinToCyrillic && LatinToCyrillic[CyrillicToLatin[c]] == c
    ensures forall c :: c in LatinToCyrillic ==> LatinToCyrillic[c] in CyrillicToLatin && CyrillicToLatin[LatinToCyrillic[c]] == c
  {
    TableEntries();
  }

  /** A character of the Unicode block "Cyrillic", `\p{InCyrillic}`. */
  predicate IsCyrillic(c: char) {
    '\U{0400}' <= c <= '\U{04FF}'
  }

  /** The characters the regular-expression `.` does not match. */
  predicate IsLineTerminator(c: char) {
    c as int in {0x0A, 0x0D, 0x85, 0x2028, 0x2029}
  }

  /** `t` matches `.*`. */
  predicate AnyDots(t: string) {
    |t| == 0 || (!IsLineTerminator(t[0]) && AnyDots(t[1..]))
  }

  /** `s.matches(".*\\p{InCyrillic}.*")`, read as a matcher over the whole string. */
  predicate MatchesCyrillicPattern(s: string) {
    |s| > 0 && !IsLineTerminator(s[0]) &&
    ((IsCyrillic(s[0]) && AnyDots(s[1..])) || MatchesCyrillicPattern(s[1..]))
  }

  lemma {:induction false} AnyDotsIff(t: string)
    ensures AnyDots(t) <==> forall i :: 0 <= i < |t| ==> !IsLineTerminator(t[i])
  {
    if |t| > 0 {
      AnyDotsIff(t[1..]);
      assert forall i :: 1 <= i < |t| ==> t[i] == t[1..][i - 1];
    }
  }

  /** The Cyrillic table is chosen exactly when the text holds a Cyrillic
      character and no line terminator. */
  lemma {:induction false} CyrillicPatternIff(s: string)
    ensures MatchesCyrillicPattern(s) <==>
      (exists i :: 0 <= i < |s| && IsCyrillic(s[i])) && (forall i :: 0 <= i < |s| ==> !IsLineTerminator(s[i]))
  {
    if |s| > 0 {
      CyrillicPatternIff(s[1..]);
      AnyDotsIff(s[1..]);
      assert forall i :: 1 <= i < |s| ==> s[i] == s[1..][i - 1];
      if (exists i :: 0 <= i < |s| && IsCyrillic(s[i])) && (forall i :: 0 <= i < |s| ==> !IsLineTerminator(s[i])) {
        var i :| 0 <= i < |s| && IsCyrillic(s[i]);
        if i > 0 {
          assert IsCyrillic(s[1..][i - 1]);
        }
      }
    }
  }

  /** `mapToUse.getOrDefault(c, c)`. */
  function Lookup(table: map<char, char>, c: char): char {
    if c in table then table[c] else c
  }

  function ConvertWith(table: map<char, char>, s: string): (r: string)
    ensures |r| == |s|
    ensures forall i :: 0 <= i < |s| ==> r[i] == Lookup(table, s[i])
  {
    if |s| == 0 then "" else [Lookup(table, s[0])] + ConvertWith(table, s[1..])
  }

  /** The table `Convert` uses for `s`. */
  function TableFor(s: string): map<char, char> {
    if MatchesCyrillicPattern(s) then CyrillicToLatin else LatinToCyrillic
  }

  /** `convert`: remaps every character through the table chosen for the whole
      string; characters the table lacks pass through unchanged. */
  function Convert(s: string): (r: string)
    ensures |r| == |s|
    ensures forall i :: 0 <= i < |s| && s[i] !in TableFor(s) ==> r[i] == s[i]
    ensures forall i :: 0 <= i < |s| && s[i] in TableFor(s) ==> r[i] == TableFor(s)[s[i]]
  {
    ConvertWith(TableFor(s), s)
  }

  predicate IsAscii(c: char) {
    c < '\U{0080}'
  }

  /** A Cyrillic-table key maps to a Latin key that is not Cyrillic and maps back. */
  lemma CyrillicKey(c: char)
    requires c in Ru()
    ensures c in CyrillicToLatin
    ensures var d := CyrillicToLatin[c];
      !IsCyrillic(d) && d in LatinToCyrillic && LatinToCyrillic[d] == c
  {
    TableRows();
    TableEntries();
    var k :| 0 <= k < |Ru()| && Ru()[k] == c;
  }

  /** Text made of characters of the Cyrillic array (the keys of
      `CyrillicToLatin`) that holds a Cyrillic character converts
      to Latin and back to itself. */
  lemma RoundTripFromCyrillic(s: string)
    requires exists i :: 0 <= i < |s| && IsCyrillic(s[i])
    requires forall i :: 0 <= i < |s| ==> s[i] in Ru()
    ensures Convert(Convert(s)) == s
  {
    TableRows();
    CyrillicPatternIff(s);
    var t := Convert(s);
    assert TableFor(s) == CyrillicToLatin;
    forall i | 0 <= i < |t|
      ensures !IsCyrillic(t[i]) && t[i] in LatinToCyrillic && LatinToCyrillic[t[i]] == s[i]
    {
      CyrillicKey(s[i]);
    }
    CyrillicPatternIff(t);
    assert TableFor(t) == LatinToCyrillic;
  }

  /** A Latin key whose Cyrillic counterpart is a letter. */
  predicate ProducesLetter(c: char) {
    c in LatinToCyrillic && IsCyrillic(LatinToCyrillic[c])
  }

  /** A Latin-table key maps to a Cyrillic-table key that maps back; when
      that key is not a Cyrillic letter, converting it once more on the Latin
      table gives the original key back, except for '/'. */
  lemma LatinKey(c: char)
    requires c in LatinToCyrillic
    ensures var d := LatinToCyrillic[c];
      && d in CyrillicToLatin && CyrillicToLatin[d] == c
      && !IsLineTerminator(d)
      && (!IsCyrillic(c))
      && (!IsCyrillic(d) ==> Lookup(LatinToCyrillic, d) == if c == '/' then 'ю' else c)
  {
    TableRows();
    TableEntries();
    var k :| 0 <= k < |En()| && En()[k] == c;
    var d := LatinToCyrillic[c];
    assert d == Ru()[k];
    if !IsCyrillic(d) {
      assert k >= 32;
      if k == 32 {
        assert Lookup(LatinToCyrillic, d) == Ru()[31];
      } else {
        assert Lookup(LatinToCyrillic, d) == Ru()[k];
      }
    }
  }

  /** Text made of Latin-table keys converts to Cyrillic and back to itself
      exactly when it contains a key that produces a Cyrillic letter, or no
      slash: otherwise the first conversion yields no Cyrillic character, the
      second one stays on the Latin table, and '/' becomes '.' and then 'ю'. */
  lemma RoundTripFromLatin(s: string)
    requires forall i :: 0 <= i < |s| ==> s[i] in LatinToCyrillic
    ensures Convert(Convert(s)) == s <==>
      (exists i :: 0 <= i < |s| && ProducesLetter(s[i])) || (forall i :: 0 <= i < |s| ==> s[i] != '/')
  {
    var t := Convert(s);
    forall i | 0 <= i < |s| ensures !IsCyrillic(s[i]) {
      LatinKey(s[i]);
    }
    CyrillicPatternIff(s);
    assert TableFor(s) == LatinToCyrillic;
    forall i | 0 <= i < |t|
      ensures t[i] == LatinToCyrillic[s[i]]
      ensures t[i] in CyrillicToLatin && CyrillicToLatin[t[i]] == s[i]
      ensures !IsLineTerminator(t[i])
      ensures !IsCyrillic(t[i]) ==> Lookup(LatinToCyrillic, t[i]) == if s[i] == '/' then 'ю' else s[i]
    {
      LatinKey(s[i]);
    }
    CyrillicPatternIff(t);
    if exists i :: 0 <= i < |s| && ProducesLetter(s[i]) {
      var i :| 0 <= i < |s| && ProducesLetter(s[i]);
      assert IsCyrillic(t[i]);
      assert TableFor(t) == CyrillicToLatin;
    } else {
      assert TableFor(t) == LatinToCyrillic;
      if i :| 0 <= i < |s| && s[i] == '/' {
        assert Convert(t)[i] == 'ю';
      } else {
        assert Convert(t) == s;
      }
    }
  }

  /** The round trip is only conditional: "/" comes back as "ю". */
  lemma SlashDoesNotRoundTrip()
    ensures Convert("/") == "." && Convert(Convert("/")) == "ю"
  {
    TableRows();
    TableEntries();
    CyrillicPatternIff("/");
    CyrillicPatternIff(".");
    assert En()[32] == '/' && LatinToCyrillic['/'] == '.';
    assert En()[31] == '.' && LatinToCyrillic['.'] == 'ю';
  }

  predicate IsAsciiDigit(c: char) {
    '0' <= c <= '9'
  }

  /** `t` matches `\d+` (in Java `\d` is `[0-9]`). */
  predicate MatchesDigits(t: string) {
    |t| > 0 && IsAsciiDigit(t[0]) && (|t| == 1 || MatchesDigits(t[1..]))
  }

  /** The matcher accepts exactly the non-empty runs of ASCII digits. */
  lemma {:induction false} DigitsIff(t: string)
    ensures MatchesDigits(t) <==> |t| > 0 && forall i :: 0 <= i < |t| ==> IsAsciiDigit(t[i])
    decreases |t|
  {
    if |t| > 1 {
      DigitsIff(t[1..]);
      assert forall i :: 1 <= i < |t| ==> t[i] == t[1..][i - 1];
    }
  }

  /** `isNumeric`: the pattern `\d+` applied to a possibly-null string. */
  function IsNumeric(s: Option<string>): (r: bool)
    ensures r <==> s.Some? && |s.value| > 0 && forall i :: 0 <= i < |s.value| ==> IsAsciiDigit(s.value[i])
  {
    match s
    case None => false
    case Some(t) => DigitsIff(t); MatchesDigits(t)
  }

  /** Punctuation that only layout confusion puts into a query. */
  predicate IsErrorChar(c: char) {
    c == '[' || c == ']' || c == '\"' || c == '/' || c == ';'
  }

  /** `isContainErrorChar`: one `contains` test per mark; the text holds an
      error mark exactly when some position of it does. */
  function HasErrorChar(s: string): (r: bool)
    ensures r <==> exists i :: 0 <= i < |s| && IsErrorChar(s[i])
  {
    '[' in s || ']' in s || '\"' in s || '/' in s || ';' in s
  }

  /** Every error character is a Latin-table key whose Cyrillic counterpart is
      not an error character; converting text on the Latin table therefore
      removes all of them. */
  lemma LatinConversionClearsErrorChars(s: string)
    requires !MatchesCyrillicPattern(s)
    ensures !HasErrorChar(Convert(s))
  {
    TableRows();
    TableEntries();
    var t := Convert(s);
    forall i | 0 <= i < |t|
      ensures !IsErrorChar(t[i])
    {
      if IsErrorChar(s[i]) {
        assert s[i] == En()[EnRow(s[i])];
      }
      if s[i] in LatinToCyrillic {
        var k :| 0 <= k < |En()| && En()[k] == s[i];
        assert t[i] == Ru()[k];
      }
    }
  }
}
