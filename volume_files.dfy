/** The volume table of js/volume-raycaster.js, the dimensions parsed
    from a volume's file name with `fileRegex` and `parseInt`, and the
    normalised volume scale handed to the vertex shader.

    `file.match(fileRegex)`, with the pattern `.*\/(\w+)_(\d+)x(\d+)x(\d+)_(\w+)\.*`, is modelled by the
    order in which a backtracking matcher tries its choices: the greedy
    `.*` puts the slash at the last possible position first, the greedy
    `(\w+)` tries its longest length first, and each digit group is a
    maximal run of digits (a shorter run is followed by a digit, never by
    `x` or `_`). */
module VolumeFiles {
  import opened VecMath
  import opened Wrappers

  predicate IsDigit(c: char) { '0' <= c <= '9' }

  /** The regex class `\w`. */
  predicate IsWordChar(c: char)
  {
    'a' <= c <= 'z' || 'A' <= c <= 'Z' || IsDigit(c) || c == '_'
  }

  function DigitValue(c: char): int { c as int - '0' as int }

  /** `parseInt` of a string of decimal digits. */
  function Decimal(w: string): int
  {
    if w == [] then 0 else 10 * Decimal(w[..|w| - 1]) + DigitValue(w[|w| - 1])
  }

  /** The number spelt by the n characters of s from position i. */
  function DigitsValue(s: string, i: nat, n: nat): int
    requires i + n <= |s|
  {
    if n == 0 then 0 else 10 * DigitsValue(s, i, n - 1) + DigitValue(s[i + n - 1])
  }

  /** Length of the longest run of digits starting at i. */
  function DigitRun(s: string, i: nat): (n: nat)
    requires i <= |s|
    ensures i + n <= |s|
    decreases |s| - i
  {
    if i < |s| && IsDigit(s[i]) then 1 + DigitRun(s, i + 1) else 0
  }

  /** Length of the longest run of word characters starting at i. */
  function WordRun(s: string, i: nat): (n: nat)
    requires i <= |s|
    ensures i + n <= |s|
    decreases |s| - i
  {
    if i < |s| && IsWordChar(s[i]) then 1 + WordRun(s, i + 1) else 0
  }

  /** A digit field: its value and the position after it. */
  datatype Field = Field(value: int, end: nat)

  /** `(\d+)` at i: the maximal run of digits and the number it spells. */
  function DigitField(s: string, i: nat): (r: Option<Field>)
    requires i <= |s|
    ensures r.Some? ==> i < r.value.end <= |s|
  {
    var a := DigitRun(s, i);
    if a == 0 then None else Some(Field(DigitsValue(s, i, a), i + a))
  }

  /** The literal character c at i. */
  predicate CharAt(s: string, i: nat, c: char) { i < |s| && s[i] == c }

  /** Three digit fields separated by `x`, then `_` and at least one word
      character: `(\d+)x(\d+)x(\d+)_(\w+)\.*` matched at i. */
  function MatchDims(s: string, i: nat): Option<IVec3>
    requires i <= |s|
  {
    match DigitField(s, i)
    case None => None
    case Some(f1) =>
      if !CharAt(s, f1.end, 'x') then None
      else match DigitField(s, f1.end + 1)
      case None => None
      case Some(f2) =>
        if !CharAt(s, f2.end, 'x') then None
        else match DigitField(s, f2.end + 1)
        case None => None
        case Some(f3) =>
          if !CharAt(s, f3.end, '_') || f3.end + 1 >= |s| || !IsWordChar(s[f3.end + 1]) then None
          else Some(IVec3(f1.value, f2.value, f3.value))
  }

  /** Group 1 is s[k..e]: the lengths are tried from the longest down, and
      the character after the group must be `_`. */
  function MatchName(s: string, k: nat, e: nat): Option<IVec3>
    requires k <= e <= |s|
    decreases e - k
  {
    if e == k then None
    else if e < |s| && s[e] == '_' && MatchDims(s, e + 1).Some? then MatchDims(s, e + 1)
    else MatchName(s, k, e - 1)
  }

  /** The slash is tried at positions below k, from the last one down. */
  function MatchSlash(s: string, k: nat): Option<IVec3>
    requires k <= |s|
  {
    if k == 0 then None
    else if s[k - 1] == '/' && MatchName(s, k, k + WordRun(s, k)).Some? then
      MatchName(s, k, k + WordRun(s, k))
    else MatchSlash(s, k - 1)
  }

  /** `[parseInt(m[2]), parseInt(m[3]), parseInt(m[4])]`, or None where
      `m` is null and reading `m[2]` throws. */
  function ParseDims(file: string): Option<IVec3>
  {
    MatchSlash(file, |file|)
  }

  // ---------------------------------------------------------------------
  // Runs and decimal values
  // ---------------------------------------------------------------------

  lemma {:induction false} DigitRunFacts(s: string, i: nat)
    requires i <= |s|
    ensures forall j :: i <= j < i + DigitRun(s, i) ==> IsDigit(s[j])
    ensures i + DigitRun(s, i) == |s| || !IsDigit(s[i + DigitRun(s, i)])
    decreases |s| - i
  {
    if i < |s| && IsDigit(s[i]) {
      DigitRunFacts(s, i + 1);
    }
  }

  lemma {:induction false} WordRunFacts(s: string, i: nat)
    requires i <= |s|
    ensures forall j :: i <= j < i + WordRun(s, i) ==> IsWordChar(s[j])
    ensures i + WordRun(s, i) == |s| || !IsWordChar(s[i + WordRun(s, i)])
    decreases |s| - i
  {
    if i < |s| && IsWordChar(s[i]) {
      WordRunFacts(s, i + 1);
    }
  }

  lemma {:induction false} DigitRunExact(s: string, i: nat, n: nat)
    requires i + n <= |s|
    requires forall j :: i <= j < i + n ==> IsDigit(s[j])
    requires i + n == |s| || !IsDigit(s[i + n])
    ensures DigitRun(s, i) == n
    decreases n
  {
    if n > 0 {
      DigitRunExact(s, i + 1, n - 1);
    }
  }

  lemma {:induction false} WordRunExact(s: string, i: nat, n: nat)
    requires i + n <= |s|
    requires forall j :: i <= j < i + n ==> IsWordChar(s[j])
    requires i + n == |s| || !IsWordChar(s[i + n])
    ensures WordRun(s, i) == n
    decreases n
  {
    if n > 0 {
      WordRunExact(s, i + 1, n - 1);
    }
  }

  /** The string w occurs in s at position i. */
  predicate Spells(s: string, i: nat, w: string)
  {
    i + |w| <= |s| && forall n :: 0 <= n < |w| ==> s[i + n] == w[n]
  }

  /** The positional value of a field is `parseInt` of its text. */
  lemma {:induction false} DigitsValueIsDecimal(s: string, i: nat, w: string)
    requires Spells(s, i, w)
    ensures DigitsValue(s, i, |w|) == Decimal(w)
    decreases |w|
  {
    if w != [] {
      var w' := w[..|w| - 1];
      assert Spells(s, i, w') by {
        assert forall n :: 0 <= n < |w'| ==> w'[n] == w[n];
      }
      DigitsValueIsDecimal(s, i, w');
    }
  }

  lemma DigitsValueOfSlice(s: string, i: nat, n: nat)
    requires i + n <= |s|
    ensures DigitsValue(s, i, n) == Decimal(s[i..i + n])
  {
    DigitsValueIsDecimal(s, i, s[i..i + n]);
  }

  lemma {:induction false} DecimalNonNegative(w: string)
    requires forall j :: 0 <= j < |w| ==> IsDigit(w[j])
    ensures Decimal(w) >= 0
    decreases |w|
  {
    if w != [] {
      DecimalNonNegative(w[..|w| - 1]);
    }
  }

  // ---------------------------------------------------------------------
  // Soundness: a parsed name has the shape of the pattern
  // ---------------------------------------------------------------------

  /** The n digits of s from i spell the number v, which is `parseInt` of
      that substring. */
  predicate DigitsAt(s: string, i: nat, n: nat, v: int)
  {
    n > 0 && i + n <= |s| && (forall j :: i <= j < i + n ==> IsDigit(s[j])) && Decimal(s[i..i + n]) == v
  }

  /** The digit fields of a match at i have lengths a, b and c and spell
      the dimensions d. */
  predicate DimsLayout(s: string, i: nat, a: nat, b: nat, c: nat, d: IVec3)
  {
    DigitsAt(s, i, a, d.x) && DigitsAt(s, i + a + 1, b, d.y) && DigitsAt(s, i + a + b + 2, c, d.z) &&
    i + a + b + c + 3 < |s| &&
    s[i + a] == 'x' && s[i + a + b + 1] == 'x' && s[i + a + b + c + 2] == '_' &&
    IsWordChar(s[i + a + b + c + 3])
  }

  /** What a match of `(\d+)x(\d+)x(\d+)_(\w+)` at i with dimensions d
      looks like. */
  ghost predicate DimsFieldAt(s: string, i: nat, d: IVec3)
  {
    exists a: nat, b: nat, c: nat :: DimsLayout(s, i, a, b, c, d)
  }

  /** A whole match: a slash at p, a non-empty word s[p+1..e], `_` at e
      and the dimension fields after it. */
  ghost predicate MatchedAt(s: string, p: nat, e: nat, d: IVec3)
  {
    p < e < |s| && s[p] == '/' && p + 1 < e &&
    (forall j :: p + 1 <= j < e ==> IsWordChar(s[j])) &&
    s[e] == '_' && DimsFieldAt(s, e + 1, d)
  }

  lemma FieldSound(s: string, i: nat)
    requires i <= |s| && DigitField(s, i).Some?
    ensures DigitsAt(s, i, DigitField(s, i).value.end - i, DigitField(s, i).value.value)
  {
    DigitRunFacts(s, i);
    DigitsValueOfSlice(s, i, DigitRun(s, i));
  }

  lemma MatchDimsSound(s: string, i: nat) returns (a: nat, b: nat, c: nat)
    requires i <= |s| && MatchDims(s, i).Some?
    ensures DimsLayout(s, i, a, b, c, MatchDims(s, i).value)
    ensures DimsFieldAt(s, i, MatchDims(s, i).value)
  {
    var d := MatchDims(s, i).value;
    var f1 := DigitField(s, i).value;
    var f2 := DigitField(s, f1.end + 1).value;
    var f3 := DigitField(s, f2.end + 1).value;
    FieldSound(s, i);
    FieldSound(s, f1.end + 1);
    FieldSound(s, f2.end + 1);
    a, b, c := f1.end - i, f2.end - f1.end - 1, f3.end - f2.end - 1;
    assert DimsLayout(s, i, a, b, c, d);
  }

  /** A name match from k, with group 1 at most e - k long, ends at a `_`
      at u followed by dimension fields of lengths a, b and c. */
  lemma {:induction false} MatchNameSound(s: string, k: nat, e: nat) returns (u: nat, a: nat, b: nat, c: nat)
    requires k <= e <= |s| && MatchName(s, k, e).Some?
    requires forall j :: k <= j < e ==> IsWordChar(s[j])
    ensures k < u < |s| && u <= e && s[u] == '_'
    ensures forall j :: k <= j < u ==> IsWordChar(s[j])
    ensures DimsLayout(s, u + 1, a, b, c, MatchName(s, k, e).value)
    decreases e - k
  {
    if e < |s| && s[e] == '_' && MatchDims(s, e + 1).Some? {
      u := e;
      assert MatchName(s, k, e) == MatchDims(s, e + 1);
      a, b, c := MatchDimsSound(s, e + 1);
    } else {
      assert MatchName(s, k, e) == MatchName(s, k, e - 1);
      u, a, b, c := MatchNameSound(s, k, e - 1);
    }
  }

  /** A match found scanning slash positions below k: a slash at p and the
      `_` at e. */
  lemma {:induction false} MatchSlashSound(s: string, k: nat) returns (p: nat, e: nat)
    requires k <= |s| && MatchSlash(s, k).Some?
    ensures MatchedAt(s, p, e, MatchSlash(s, k).value)
    decreases k
  {
    if s[k - 1] == '/' && MatchName(s, k, k + WordRun(s, k)).Some? {
      var d := MatchSlash(s, k).value;
      WordRunFacts(s, k);
      var a, b, c;
      e, a, b, c := MatchNameSound(s, k, k + WordRun(s, k));
      p := k - 1;
      assert DimsFieldAt(s, e + 1, d);
      assert MatchedAt(s, p, e, d);
    } else {
      p, e := MatchSlashSound(s, k - 1);
    }
  }

  /** Whatever dimensions are parsed, the file name has the shape the
      pattern describes, with those numbers in its digit fields. */
  lemma ParseDimsSound(file: string)
    requires ParseDims(file).Some?
    ensures exists p: nat, e: nat :: MatchedAt(file, p, e, ParseDims(file).value)
  {
    var p, e := MatchSlashSound(file, |file|);
  }

  lemma DigitsAtNonNegative(s: string, i: nat, n: nat, v: int)
    requires DigitsAt(s, i, n, v)
    ensures v >= 0
  {
    DecimalNonNegative(s[i..i + n]);
  }

  predicate NonNegativeDims(d: IVec3) { d.x >= 0 && d.y >= 0 && d.z >= 0 }

  lemma MatchDimsNonNegative(s: string, i: nat)
    requires i <= |s| && MatchDims(s, i).Some?
    ensures NonNegativeDims(MatchDims(s, i).value)
  {
    var f1 := DigitField(s, i).value;
    var f2 := DigitField(s, f1.end + 1).value;
    var f3 := DigitField(s, f2.end + 1).value;
    FieldSound(s, i);
    FieldSound(s, f1.end + 1);
    FieldSound(s, f2.end + 1);
    DigitsAtNonNegative(s, i, f1.end - i, f1.value);
    DigitsAtNonNegative(s, f1.end + 1, f2.end - f1.end - 1, f2.value);
    DigitsAtNonNegative(s, f2.end + 1, f3.end - f2.end - 1, f3.value);
  }

  lemma {:induction false} MatchNameNonNegative(s: string, k: nat, e: nat)
    requires k <= e <= |s| && MatchName(s, k, e).Some?
    ensures NonNegativeDims(MatchName(s, k, e).value)
    decreases e - k
  {
    if e < |s| && s[e] == '_' && MatchDims(s, e + 1).Some? {
      MatchDimsNonNegative(s, e + 1);
    } else {
      MatchNameNonNegative(s, k, e - 1);
    }
  }

  lemma {:induction false} MatchSlashNonNegative(s: string, k: nat)
    requires k <= |s| && MatchSlash(s, k).Some?
    ensures NonNegativeDims(MatchSlash(s, k).value)
    decreases k
  {
    if s[k - 1] == '/' && MatchName(s, k, k + WordRun(s, k)).Some? {
      MatchNameNonNegative(s, k, k + WordRun(s, k));
    } else {
      MatchSlashNonNegative(s, k - 1);
    }
  }

  /** Parsed dimensions are never negative. */
  lemma ParseDimsNonNegative(file: string)
    requires ParseDims(file).Some?
    ensures var d := ParseDims(file).value; d.x >= 0 && d.y >= 0 && d.z >= 0
  {
    MatchSlashNonNegative(file, |file|);
  }

  /** A name with no slash never matches, so loading it fails. */
  lemma {:induction false} NoSlashNoMatch(s: string, k: nat)
    requires k <= |s|
    requires forall j :: 0 <= j < k ==> s[j] != '/'
    ensures MatchSlash(s, k) == None
    decreases k
  {
    if k > 0 {
      NoSlashNoMatch(s, k - 1);
    }
  }

  // ---------------------------------------------------------------------
  // Completeness: a well-formed name parses to the size in it
  // ---------------------------------------------------------------------

  predicate AllWordChars(s: string) { forall j :: 0 <= j < |s| ==> IsWordChar(s[j]) }
  predicate AllDigits(s: string) { forall j :: 0 <= j < |s| ==> IsDigit(s[j]) }

  lemma SpellsHead(s: string, i: nat, c: char, y: string)
    requires Spells(s, i, [c] + y)
    ensures i < |s| && s[i] == c && Spells(s, i + 1, y)
  {
    assert s[i + 0] == ([c] + y)[0];
    forall n | 0 <= n < |y|
      ensures s[i + 1 + n] == y[n]
    {
      assert s[i + (1 + n)] == ([c] + y)[1 + n];
    }
  }

  lemma SpellsConcat(s: string, i: nat, x: string, y: string)
    requires Spells(s, i, x + y)
    ensures Spells(s, i, x) && Spells(s, i + |x|, y)
  {
    assert forall n :: 0 <= n < |x| ==> (x + y)[n] == x[n];
    assert forall n :: 0 <= n < |y| ==> (x + y)[|x| + n] == y[n];
  }

  /** Slash positions holding no slash are skipped. */
  lemma {:induction false} SlashSkip(s: string, m: nat, k: nat)
    requires m <= k <= |s|
    requires forall j :: m <= j < k ==> s[j] != '/'
    ensures MatchSlash(s, k) == MatchSlash(s, m)
    decreases k
  {
    if k > m {
      SlashSkip(s, m, k - 1);
    }
  }

  /** The character at j is not a `_` followed by the dimension fields. */
  predicate NoDimsAfter(s: string, j: nat)
  {
    j < |s| ==> s[j] != '_' || MatchDims(s, j + 1).None?
  }

  /** Group-1 lengths whose next character is not a `_` that starts the
      dimension fields are skipped. */
  lemma {:induction false} NameSkip(s: string, k: nat, u: nat, e: nat)
    requires k <= u <= e <= |s|
    requires forall j :: u < j <= e ==> NoDimsAfter(s, j)
    ensures MatchName(s, k, e) == MatchName(s, k, u)
    decreases e
  {
    if e > u {
      assert NoDimsAfter(s, e);
      NameSkip(s, k, u, e - 1);
    }
  }

  lemma DigitFieldOf(s: string, i: nat, w: string)
    requires AllDigits(w) && w != []
    requires Spells(s, i, w) && i + |w| < |s| && !IsDigit(s[i + |w|])
    ensures DigitField(s, i) == Some(Field(Decimal(w), i + |w|))
  {
    assert forall j :: i <= j < i + |w| ==> s[j] == w[j - i];
    DigitRunExact(s, i, |w|);
    DigitsValueIsDecimal(s, i, w);
  }

  lemma MatchDimsOfFields(s: string, i: nat, x: int, a: nat, y: int, b: nat, z: int, c: nat)
    requires i <= |s|
    requires DigitField(s, i) == Some(Field(x, a)) && CharAt(s, a, 'x')
    requires a + 1 <= |s| && DigitField(s, a + 1) == Some(Field(y, b)) && CharAt(s, b, 'x')
    requires b + 1 <= |s| && DigitField(s, b + 1) == Some(Field(z, c)) && CharAt(s, c, '_')
    requires c + 1 < |s| && IsWordChar(s[c + 1])
    ensures MatchDims(s, i) == Some(IVec3(x, y, z))
  {
  }

  /** `W x H x D _ tail`, grouped from the right. */
  function DimsText(w: string, h: string, d: string, t: string): string
  {
    w + ("x" + (h + ("x" + (d + ("_" + t)))))
  }

  /** Where the pieces of `W x H x D _ tail` lie when s spells it at i. */
  lemma DimsTextSpelt(s: string, i: nat, w: string, h: string, d: string, t: string)
    requires t != []
    requires Spells(s, i, DimsText(w, h, d, t))
    ensures var a := i + |w|; var b := a + 1 + |h|; var c := b + 1 + |d|;
            Spells(s, i, w) && Spells(s, a + 1, h) && Spells(s, b + 1, d) &&
            c + 1 < |s| && s[a] == 'x' && s[b] == 'x' && s[c] == '_' && s[c + 1] == t[0]
  {
    var a := i + |w|;
    var b := a + 1 + |h|;
    var c := b + 1 + |d|;
    SpellsConcat(s, i, w, "x" + (h + ("x" + (d + ("_" + t)))));
    SpellsHead(s, a, 'x', h + ("x" + (d + ("_" + t))));
    SpellsConcat(s, a + 1, h, "x" + (d + ("_" + t)));
    SpellsHead(s, b, 'x', d + ("_" + t));
    SpellsConcat(s, b + 1, d, "_" + t);
    SpellsHead(s, c, '_', t);
    assert s[c + 1 + 0] == t[0];
  }

  lemma MatchDimsOf(s: string, i: nat, w: string, h: string, d: string, t: string)
    requires AllDigits(w) && AllDigits(h) && AllDigits(d) && w != [] && h != [] && d != []
    requires t != [] && IsWordChar(t[0])
    requires Spells(s, i, DimsText(w, h, d, t))
    ensures MatchDims(s, i) == Some(IVec3(Decimal(w), Decimal(h), Decimal(d)))
  {
    var a := i + |w|;
    var b := a + 1 + |h|;
    var c := b + 1 + |d|;
    DimsTextSpelt(s, i, w, h, d, t);
    DigitFieldOf(s, i, w);
    DigitFieldOf(s, a + 1, h);
    DigitFieldOf(s, b + 1, d);
    MatchDimsOfFields(s, i, Decimal(w), a, Decimal(h), b, Decimal(d), c);
  }

  /** The word after the slash: `name _ W x H x D _ tail`. */
  function WordText(name: string, w: string, h: string, d: string, t: string): string
  {
    name + ("_" + DimsText(w, h, d, t))
  }

  /** Inside `W x H x D _ tail` the only `_` is the one before the tail,
      and the tail cannot start a digit field. */
  lemma DimsTextUnderscores(s: string, i: nat, w: string, h: string, d: string, t: string)
    requires AllDigits(w) && AllDigits(h) && AllDigits(d)
    requires t != [] && !IsDigit(t[0]) && '_' !in t
    requires Spells(s, i, DimsText(w, h, d, t))
    ensures var m := i + |w| + |h| + |d| + 2;
            m + 1 + |t| == i + |DimsText(w, h, d, t)| &&
            (forall j :: i <= j < i + |DimsText(w, h, d, t)| && j != m ==> s[j] != '_') &&
            MatchDims(s, m + 1) == None
  {
    var text := DimsText(w, h, d, t);
    var m := i + |w| + |h| + |d| + 2;
    assert text == w + "x" + h + "x" + d + "_" + t;
    forall j | i <= j < i + |text| && j != m
      ensures s[j] != '_'
    {
      assert s[i + (j - i)] == text[j - i];
      if j > m {
        assert text[j - i] == t[j - m - 1];
      }
    }
    assert s[i + (m + 1 - i)] == text[m + 1 - i] == t[0];
    assert DigitRun(s, m + 1) == 0;
  }

  lemma WordTextAllWord(name: string, w: string, h: string, d: string, t: string)
    requires AllWordChars(name) && AllDigits(w) && AllDigits(h) && AllDigits(d) && AllWordChars(t)
    ensures AllWordChars(WordText(name, w, h, d, t))
  {
    assert WordText(name, w, h, d, t) == name + "_" + w + "x" + h + "x" + d + "_" + t;
  }

  lemma WordRunOf(s: string, k: nat, word: string)
    requires AllWordChars(word) && Spells(s, k, word)
    requires k + |word| == |s| || !IsWordChar(s[k + |word|])
    ensures WordRun(s, k) == |word|
  {
    forall j | k <= j < k + |word|
      ensures IsWordChar(s[j])
    {
      assert s[k + (j - k)] == word[j - k];
    }
    WordRunExact(s, k, |word|);
  }

  /** The word `name _ W x H x D _ tail` written at k is a maximal run of
      word characters when the character after it is not one. */
  lemma NameWordRun(s: string, k: nat, name: string, w: string, h: string, d: string, t: string)
    requires name != [] && AllWordChars(name)
    requires w != [] && h != [] && d != [] && AllDigits(w) && AllDigits(h) && AllDigits(d)
    requires t != [] && AllWordChars(t) && !IsDigit(t[0]) && '_' !in t
    requires Spells(s, k, WordText(name, w, h, d, t))
    requires k + |WordText(name, w, h, d, t)| == |s| || !IsWordChar(s[k + |WordText(name, w, h, d, t)|])
    ensures WordRun(s, k) == |WordText(name, w, h, d, t)|
  {
    WordTextAllWord(name, w, h, d, t);
    WordRunOf(s, k, WordText(name, w, h, d, t));
  }

  /** After the name comes `_` and the dimension fields. */
  lemma NameDims(s: string, k: nat, name: string, w: string, h: string, d: string, t: string)
    requires name != [] && AllWordChars(name)
    requires w != [] && h != [] && d != [] && AllDigits(w) && AllDigits(h) && AllDigits(d)
    requires t != [] && AllWordChars(t) && !IsDigit(t[0]) && '_' !in t
    requires Spells(s, k, WordText(name, w, h, d, t))
    ensures k + |name| + 1 < |s| && s[k + |name|] == '_'
    ensures MatchDims(s, k + |name| + 1) == Some(IVec3(Decimal(w), Decimal(h), Decimal(d)))
  {
    var text := DimsText(w, h, d, t);
    SpellsConcat(s, k, name, "_" + text);
    SpellsHead(s, k + |name|, '_', text);
    MatchDimsOf(s, k + |name| + 1, w, h, d, t);
  }

  /** After the dimension fields, the only `_` is the one before the tail,
      and that one does not start dimension fields. */
  lemma NameTail(s: string, k: nat, name: string, w: string, h: string, d: string, t: string)
    requires name != [] && AllWordChars(name)
    requires w != [] && h != [] && d != [] && AllDigits(w) && AllDigits(h) && AllDigits(d)
    requires t != [] && AllWordChars(t) && !IsDigit(t[0]) && '_' !in t
    requires Spells(s, k, WordText(name, w, h, d, t))
    requires k + |WordText(name, w, h, d, t)| == |s| || !IsWordChar(s[k + |WordText(name, w, h, d, t)|])
    ensures k + |name| < k + |WordText(name, w, h, d, t)| <= |s|
    ensures forall j :: k + |name| < j <= k + |WordText(name, w, h, d, t)| ==> NoDimsAfter(s, j)
  {
    var text := DimsText(w, h, d, t);
    SpellsConcat(s, k, name, "_" + text);
    SpellsHead(s, k + |name|, '_', text);
    DimsTextUnderscores(s, k + |name| + 1, w, h, d, t);
    TailSkips(s, k + |name|, k + |name| + |w| + |h| + |d| + 3, k + |WordText(name, w, h, d, t)|);
  }

  /** Within the word after the slash, group 1 backs off to the `_` before
      the dimension fields. */
  lemma MatchNameOf(s: string, k: nat, name: string, w: string, h: string, d: string, t: string)
    requires name != [] && AllWordChars(name)
    requires w != [] && h != [] && d != [] && AllDigits(w) && AllDigits(h) && AllDigits(d)
    requires t != [] && AllWordChars(t) && !IsDigit(t[0]) && '_' !in t
    requires Spells(s, k, WordText(name, w, h, d, t))
    requires k + |WordText(name, w, h, d, t)| == |s| || !IsWordChar(s[k + |WordText(name, w, h, d, t)|])
    ensures WordRun(s, k) == |WordText(name, w, h, d, t)|
    ensures MatchName(s, k, k + WordRun(s, k)) == Some(IVec3(Decimal(w), Decimal(h), Decimal(d)))
  {
    NameWordRun(s, k, name, w, h, d, t);
    NameMatch(s, k, name, w, h, d, t);
  }

  lemma NameMatch(s: string, k: nat, name: string, w: string, h: string, d: string, t: string)
    requires name != [] && AllWordChars(name)
    requires w != [] && h != [] && d != [] && AllDigits(w) && AllDigits(h) && AllDigits(d)
    requires t != [] && AllWordChars(t) && !IsDigit(t[0]) && '_' !in t
    requires Spells(s, k, WordText(name, w, h, d, t))
    requires k + |WordText(name, w, h, d, t)| == |s| || !IsWordChar(s[k + |WordText(name, w, h, d, t)|])
    ensures MatchName(s, k, k + |WordText(name, w, h, d, t)|) == Some(IVec3(Decimal(w), Decimal(h), Decimal(d)))
  {
    NameDims(s, k, name, w, h, d, t);
    NameTail(s, k, name, w, h, d, t);
    MatchNameAt(s, k, k + |name|, k + |WordText(name, w, h, d, t)|, IVec3(Decimal(w), Decimal(h), Decimal(d)));
  }

  /** Group 1 ends at u when the word ends at tEnd, u is followed by `_`
      and the dimension fields, and no later `_` is. */
  lemma MatchNameAt(s: string, k: nat, u: nat, tEnd: nat, v: IVec3)
    requires k < u < tEnd <= |s|
    requires s[u] == '_' && MatchDims(s, u + 1) == Some(v)
    requires forall j :: u < j <= tEnd ==> NoDimsAfter(s, j)
    ensures MatchName(s, k, tEnd) == Some(v)
  {
    NameSkip(s, k, u, tEnd);
    NameStops(s, k, u);
  }

  /** Past the `_` at u, no later `_` up to the end of the word starts the
      dimension fields. */
  lemma TailSkips(s: string, u: nat, m: nat, tEnd: nat)
    requires u < m < tEnd <= |s|
    requires forall j :: u + 1 <= j < tEnd && j != m ==> s[j] != '_'
    requires MatchDims(s, m + 1) == None
    requires tEnd == |s| || !IsWordChar(s[tEnd])
    ensures forall j :: u < j <= tEnd ==> NoDimsAfter(s, j)
  {
    forall j | u < j <= tEnd
      ensures NoDimsAfter(s, j)
    {
      if j == m {
      }
    }
  }

  lemma NameStops(s: string, k: nat, u: nat)
    requires k < u < |s| && s[u] == '_' && MatchDims(s, u + 1).Some?
    ensures MatchName(s, k, u) == MatchDims(s, u + 1)
  {
  }

  lemma SlashStops(s: string, k: nat)
    requires 0 < k <= |s| && s[k - 1] == '/' && MatchName(s, k, k + WordRun(s, k)).Some?
    ensures MatchSlash(s, k) == MatchName(s, k, k + WordRun(s, k))
  {
  }

  /** A file name of the shape `prefix/name_WxHxD_tail.ext` parses to
      (W, H, D), when the tail is a word that neither starts with a digit
      nor holds a `_`, and the extension starts with a non-word character
      and holds no slash. */
  lemma ParseWellFormed(prefix: string, name: string, w: string, h: string, d: string, t: string, ext: string)
    requires name != [] && AllWordChars(name)
    requires w != [] && h != [] && d != [] && AllDigits(w) && AllDigits(h) && AllDigits(d)
    requires t != [] && AllWordChars(t) && !IsDigit(t[0]) && '_' !in t
    requires ext == [] || !IsWordChar(ext[0])
    requires '/' !in ext
    ensures ParseDims(prefix + "/" + WordText(name, w, h, d, t) + ext)
            == Some(IVec3(Decimal(w), Decimal(h), Decimal(d)))
  {
    var word := WordText(name, w, h, d, t);
    var s := prefix + "/" + word + ext;
    var k := |prefix| + 1;
    assert s == (prefix + "/") + (word + ext);
    SpellsSuffix(prefix + "/", word + ext);
    SpellsConcat(s, k, word, ext);
    if ext != [] {
      assert s[k + |word| + 0] == ext[0];
    }
    MatchNameOf(s, k, name, w, h, d, t);
    WordTextAllWord(name, w, h, d, t);
    forall j | k <= j < |s|
      ensures s[j] != '/'
    {
      if j < k + |word| {
        assert s[k + (j - k)] == word[j - k];
      } else {
        assert s[k + |word| + (j - k - |word|)] == ext[j - k - |word|];
      }
    }
    assert s[k - 1] == '/';
    SlashStops(s, k);
    SlashSkip(s, k, |s|);
  }

  /** The second half of a concatenation occurs after the first. */
  lemma SpellsSuffix(x: string, y: string)
    ensures Spells(x + y, |x|, y)
  {
  }

  // ---------------------------------------------------------------------
  // The volume table
  // ---------------------------------------------------------------------

  const Fuel: string := "7d87jcsh0qodk78/fuel_64x64x64_uint8.raw"
  const Neghip: string := "zgocya7h33nltu9/neghip_64x64x64_uint8.raw"
  const HydrogenAtom: string := "jwbav8s3wmmxd5x/hydrogen_atom_128x128x128_uint8.raw"
  const BostonTeapot: string := "w4y88hlf2nbduiv/boston_teapot_256x256x178_uint8.raw"
  const Engine: string := "ld2sqwwd3vaq4zf/engine_256x256x128_uint8.raw"
  const Bonsai: string := "rdnhdxmxtfxe0sa/bonsai_256x256x256_uint8.raw"
  const Foot: string := "ic0mik3qv4vqacm/foot_256x256x256_uint8.raw"
  const Skull: string := "5rfjobn0lvb7tmo/skull_256x256x256_uint8.raw"
  const Aneurysm: string := "3ykigaiym8uiwbp/aneurism_256x256x256_uint8.raw"

  /** The table's naming scheme: `<key>/<name>_<W>x<H>x<D>_uint8.raw`. */
  function TableFile(key: string, name: string, w: string, h: string, d: string): string
  {
    key + "/" + WordText(name, w, h, d, "uint8") + ".raw"
  }

  /** A name in the table's scheme parses to the three numbers in it. */
  lemma TableFileParses(key: string, name: string, w: string, h: string, d: string)
    requires name != [] && AllWordChars(name)
    requires w != [] && h != [] && d != [] && AllDigits(w) && AllDigits(h) && AllDigits(d)
    ensures ParseDims(TableFile(key, name, w, h, d)) == Some(IVec3(Decimal(w), Decimal(h), Decimal(d)))
  {
    var t := "uint8";
    assert AllWordChars(t) by {
      assert forall j :: 0 <= j < |t| ==> t[j] in "uint8";
    }
    ParseWellFormed(key, name, w, h, d, t, ".raw");
  }

  /** A lower-case name with underscores is a word. */
  lemma LowerWord(name: string)
    requires forall j :: 0 <= j < |name| ==> 'a' <= name[j] <= 'z' || name[j] == '_'
    ensures AllWordChars(name)
  {
  }

  /** The sizes spelt in the table. */
  lemma TableSizes()
    ensures AllDigits("64") && Decimal("64") == 64
    ensures AllDigits("128") && Decimal("128") == 128
    ensures AllDigits("178") && Decimal("178") == 178
    ensures AllDigits("256") && Decimal("256") == 256
  {
  }

  lemma FuelNamed()
    ensures Fuel == TableFile("7d87jcsh0qodk78", "fuel", "64", "64", "64")
  {
  }

  lemma FuelParses()
    ensures ParseDims(Fuel) == Some(IVec3(64, 64, 64))
  {
    TableSizes();
    FuelNamed();
    LowerWord("fuel");
    TableFileParses("7d87jcsh0qodk78", "fuel", "64", "64", "64");
  }

  lemma NeghipNamed()
    ensures Neghip == TableFile("zgocya7h33nltu9", "neghip", "64", "64", "64")
  {
  }

  lemma NeghipParses()
    ensures ParseDims(Neghip) == Some(IVec3(64, 64, 64))
  {
    TableSizes();
    NeghipNamed();
    LowerWord("neghip");
    TableFileParses("zgocya7h33nltu9", "neghip", "64", "64", "64");
  }

  lemma HydrogenAtomNamed()
    ensures HydrogenAtom == TableFile("jwbav8s3wmmxd5x", "hydrogen_atom", "128", "128", "128")
  {
  }

  lemma HydrogenAtomParses()
    ensures ParseDims(HydrogenAtom) == Some(IVec3(128, 128, 128))
  {
    TableSizes();
    HydrogenAtomNamed();
    LowerWord("hydrogen_atom");
    TableFileParses("jwbav8s3wmmxd5x", "hydrogen_atom", "128", "128", "128");
  }

  lemma BostonTeapotNamed()
    ensures BostonTeapot == TableFile("w4y88hlf2nbduiv", "boston_teapot", "256", "256", "178")
  {
  }

  lemma BostonTeapotParses()
    ensures ParseDims(BostonTeapot) == Some(IVec3(256, 256, 178))
  {
    TableSizes();
    BostonTeapotNamed();
    LowerWord("boston_teapot");
    TableFileParses("w4y88hlf2nbduiv", "boston_teapot", "256", "256", "178");
  }

  lemma EngineNamed()
    ensures Engine == TableFile("ld2sqwwd3vaq4zf", "engine", "256", "256", "128")
  {
  }

  lemma EngineParses()
    ensures ParseDims(Engine) == Some(IVec3(256, 256, 128))
  {
    TableSizes();
    EngineNamed();
    LowerWord("engine");
    TableFileParses("ld2sqwwd3vaq4zf", "engine", "256", "256", "128");
  }

  lemma BonsaiNamed()
    ensures Bonsai == TableFile("rdnhdxmxtfxe0sa", "bonsai", "256", "256", "256")
  {
  }

  lemma BonsaiParses()
    ensures ParseDims(Bonsai) == Some(IVec3(256, 256, 256))
  {
    TableSizes();
    BonsaiNamed();
    LowerWord("bonsai");
    TableFileParses("rdnhdxmxtfxe0sa", "bonsai", "256", "256", "256");
  }

  lemma FootNamed()
    ensures Foot == TableFile("ic0mik3qv4vqacm", "foot", "256", "256", "256")
  {
  }

  lemma FootParses()
    ensures ParseDims(Foot) == Some(IVec3(256, 256, 256))
  {
    TableSizes();
    FootNamed();
    LowerWord("foot");
    TableFileParses("ic0mik3qv4vqacm", "foot", "256", "256", "256");
  }

  lemma SkullNamed()
    ensures Skull == TableFile("5rfjobn0lvb7tmo", "skull", "256", "256", "256")
  {
  }

  lemma SkullParses()
    ensures ParseDims(Skull) == Some(IVec3(256, 256, 256))
  {
    TableSizes();
    SkullNamed();
    LowerWord("skull");
    TableFileParses("5rfjobn0lvb7tmo", "skull", "256", "256", "256");
  }

  lemma AneurysmNamed()
    ensures Aneurysm == TableFile("3ykigaiym8uiwbp", "aneurism", "256", "256", "256")
  {
  }

  lemma AneurysmParses()
    ensures ParseDims(Aneurysm) == Some(IVec3(256, 256, 256))
  {
    TableSizes();
    AneurysmNamed();
    LowerWord("aneurism");
    TableFileParses("3ykigaiym8uiwbp", "aneurism", "256", "256", "256");
  }

  /** Every entry of the volume table parses to the size in its name. */
  lemma VolumeTableParses()
    ensures ParseDims(Fuel) == Some(IVec3(64, 64, 64))
    ensures ParseDims(Neghip) == Some(IVec3(64, 64, 64))
    ensures ParseDims(HydrogenAtom) == Some(IVec3(128, 128, 128))
    ensures ParseDims(BostonTeapot) == Some(IVec3(256, 256, 178))
    ensures ParseDims(Engine) == Some(IVec3(256, 256, 128))
    ensures ParseDims(Bonsai) == Some(IVec3(256, 256, 256))
    ensures ParseDims(Foot) == Some(IVec3(256, 256, 256))
    ensures ParseDims(Skull) == Some(IVec3(256, 256, 256))
    ensures ParseDims(Aneurysm) == Some(IVec3(256, 256, 256))
  {
    FuelParses();
    NeghipParses();
    HydrogenAtomParses();
    BostonTeapotParses();
    EngineParses();
    BonsaiParses();
    FootParses();
    SkullParses();
    AneurysmParses();
  }

  // ---------------------------------------------------------------------
  // The volume scale
  // ---------------------------------------------------------------------

  function IntMax(a: int, b: int): int { if a >= b then a else b }

  /** `Math.max(volDims[0], Math.max(volDims[1], volDims[2]))`. */
  function LongestAxis(d: IVec3): (m: int)
    ensures d.x <= m && d.y <= m && d.z <= m
    ensures m == d.x || m == d.y || m == d.z
  {
    IntMax(d.x, IntMax(d.y, d.z))
  }

  lemma DivideByLongest(x: int, m: int)
    requires 0 <= x <= m && m > 0
    ensures 0.0 <= (x as real) / (m as real) <= 1.0
    ensures x > 0 ==> (x as real) / (m as real) > 0.0
    ensures x == m ==> (x as real) / (m as real) == 1.0
  {
  }

  /** `volScale`: each dimension divided by the longest one. With every
      dimension 0 the division is 0/0 and gives NaN, modelled as None. */
  function VolScale(d: IVec3): (r: Option<Vec3>)
    requires d.x >= 0 && d.y >= 0 && d.z >= 0
    ensures r.None? <==> d == IVec3(0, 0, 0)
    ensures r.Some? ==> r.value.x * (LongestAxis(d) as real) == d.x as real &&
                        r.value.y * (LongestAxis(d) as real) == d.y as real &&
                        r.value.z * (LongestAxis(d) as real) == d.z as real
  {
    var m := LongestAxis(d);
    if m == 0 then None
    else Some(Vec3((d.x as real) / (m as real), (d.y as real) / (m as real), (d.z as real) / (m as real)))
  }

  /** Each component of the scale lies in [0, 1], is positive for a
      positive dimension, and the longest axis gets exactly 1. */
  lemma VolScaleBounds(d: IVec3)
    requires d.x >= 0 && d.y >= 0 && d.z >= 0 && d != IVec3(0, 0, 0)
    ensures var v := VolScale(d).value;
            0.0 <= v.x <= 1.0 && 0.0 <= v.y <= 1.0 && 0.0 <= v.z <= 1.0 &&
            (d.x > 0 ==> v.x > 0.0) && (d.y > 0 ==> v.y > 0.0) && (d.z > 0 ==> v.z > 0.0) &&
            (v.x == 1.0 || v.y == 1.0 || v.z == 1.0)
  {
    var m := LongestAxis(d);
    DivideByLongest(d.x, m);
    DivideByLongest(d.y, m);
    DivideByLongest(d.z, m);
  }

  /** The Boston teapot, 256 x 256 x 178, is drawn at full size in x and
      y and at 178/256 of it in z. */
  lemma TeapotScale()
    ensures VolScale(IVec3(256, 256, 178)) == Some(Vec3(1.0, 1.0, 178.0 / 256.0))
  {
  }
}
