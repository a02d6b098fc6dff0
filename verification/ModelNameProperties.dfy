/** What normalised names promise, and when two collections share a name. */
module ModelNameProperties {
  import opened Decimal
  import opened Trimming
  import opened ModelNames

  // ---------------------------------------------------------------- the shape of a normalised name

  ghost predicate Touching(isAlnum: char -> bool, s: string) {
    exists i, j :: 0 <= i < j < |s| && j == i + 1 && !isAlnum(s[i]) && !isAlnum(s[j])
  }

  /** Only word characters and single dashes, each dash between two words. */
  ghost predicate Tidy(isAlnum: char -> bool, s: string) {
    && (forall i :: 0 <= i < |s| ==> isAlnum(s[i]) || s[i] == '-')
    && !Touching(isAlnum, s)
    && (s != "" ==> isAlnum(s[0]) && isAlnum(s[|s| - 1]))
  }

  lemma {:induction false} JoinIsTidy(isAlnum: char -> bool, ws: seq<string>)
    requires AllWords(isAlnum, ws) && !isAlnum('-')
    ensures Tidy(isAlnum, JoinDashed(ws))
  {
    if |ws| == 1 {
      assert Word(isAlnum, ws[0]);
    } else if |ws| > 1 {
      var init, w := ws[..|ws| - 1], ws[|ws| - 1];
      JoinIsTidy(isAlnum, init);
      JoinEnds(isAlnum, init);
      assert Word(isAlnum, w);
      TidyAppend(isAlnum, JoinDashed(init), w);
    }
  }

  lemma TidyAppend(isAlnum: char -> bool, j: string, w: string)
    requires Tidy(isAlnum, j) && j != "" && Word(isAlnum, w)
    ensures Tidy(isAlnum, j + "-" + w)
  {
    var s := j + "-" + w;
    forall i, k | 0 <= i < k < |s| && k == i + 1
      ensures isAlnum(s[i]) || isAlnum(s[k])
    {
      if k < |j| {
        assert s[i] == j[i] && s[k] == j[k];
      } else if k == |j| {
        assert s[i] == j[|j| - 1];
      } else {
        assert s[k] == w[k - |j| - 1];
      }
    }
  }

  /** All the scanner's outputs up to position `n`. */
  function Outputs(isAlnum: char -> bool, s: string, n: nat): string
    requires n <= |s|
  {
    if n == 0 then "" else Outputs(isAlnum, s, n - 1) + StepOutput(isAlnum, s, n - 1)
  }

  /** What grows by a step's output at each position is all the outputs up to there. */
  lemma {:induction false} GrowsByOutputs(isAlnum: char -> bool, s: string, scan: string -> string, n: nat)
    requires n <= |s| && scan("") == ""
    requires forall i: nat :: i < |s| ==> scan(s[..i + 1]) == scan(s[..i]) + StepOutput(isAlnum, s, i)
    ensures scan(s[..n]) == Outputs(isAlnum, s, n)
  {
    if n == 0 {
      assert s[..0] == "";
    } else {
      GrowsByOutputs(isAlnum, s, scan, n - 1);
      assert s[..n - 1 + 1] == s[..n];
    }
  }

  lemma ScannedIsOutputs(isAlnum: char -> bool, s: string, n: nat)
    requires n <= |s|
    ensures Scanned(isAlnum, s[..n]) == Outputs(isAlnum, s, n)
  {
    var scan := t => Scanned(isAlnum, t);
    forall i: nat | i < |s|
      ensures scan(s[..i + 1]) == scan(s[..i]) + StepOutput(isAlnum, s, i)
    {
      ScanNext(isAlnum, s, i);
    }
    GrowsByOutputs(isAlnum, s, scan, n);
    assert scan(s[..n]) == Outputs(isAlnum, s, n);
  }

  /** On a tidy text each step outputs its own character. */
  lemma {:induction false} TidyOutputs(isAlnum: char -> bool, s: string, n: nat)
    requires Tidy(isAlnum, s) && n <= |s|
    ensures Outputs(isAlnum, s, n) == s[..n]
  {
    if n > 0 {
      TidyOutputs(isAlnum, s, n - 1);
      assert !isAlnum(s[n - 1]) ==> s[n - 1] == '-' && n > 1;
      assert s[..n] == s[..n - 1] + [s[n - 1]];
    }
  }

  lemma TidyIsFixed(isAlnum: char -> bool, s: string)
    requires Tidy(isAlnum, s)
    ensures Dashed(isAlnum, s) == s
  {
    TidyOutputs(isAlnum, s, |s|);
    ScannedIsOutputs(isAlnum, s, |s|);
    assert s[..|s|] == s;
    if s != "" {
      NoWordsNoAlnum(isAlnum, s);
      FramedGrow(false, Dashed(isAlnum, s), "");
    }
  }

  // ---------------------------------------------------------------- the words survive

  lemma {:induction false} WordsAfterGap(isAlnum: char -> bool, s: string, w: string)
    requires s == "" || !isAlnum(s[|s| - 1])
    requires Word(isAlnum, w)
    ensures Words(isAlnum, s + w) == Words(isAlnum, s) + [w]
  {
    var init, c := w[..|w| - 1], w[|w| - 1];
    var ws := Words(isAlnum, s);
    Regroup(s, w);
    WordsAppend(isAlnum, s + init, c);
    if init == "" {
      assert s + init == s && w == [c];
    } else {
      WordsAfterGap(isAlnum, s, init);
      LastOf(s, init);
      assert (ws + [init])[..|ws|] == ws;
    }
  }

  lemma Regroup(s: string, w: string)
    requires w != ""
    ensures w == w[..|w| - 1] + [w[|w| - 1]]
    ensures s + w == (s + w[..|w| - 1]) + [w[|w| - 1]]
  {}

  lemma LastOf(s: string, t: string)
    requires t != ""
    ensures (s + t)[|s + t| - 1] == t[|t| - 1]
  {}

  /** Joining words with dashes and splitting again gives the words back. */
  lemma {:induction false} WordsOfJoin(isAlnum: char -> bool, ws: seq<string>)
    requires AllWords(isAlnum, ws) && !isAlnum('-')
    ensures Words(isAlnum, JoinDashed(ws)) == ws
  {
    if |ws| == 1 {
      assert Word(isAlnum, ws[0]);
      WordsAfterGap(isAlnum, "", ws[0]);
      assert "" + ws[0] == ws[0];
    } else if |ws| > 1 {
      var init, w := ws[..|ws| - 1], ws[|ws| - 1];
      WordsOfJoin(isAlnum, init);
      assert Word(isAlnum, w);
      WordsAfterDash(isAlnum, JoinDashed(init), w);
      assert ws == init + [w];
    }
  }

  lemma WordsAfterDash(isAlnum: char -> bool, j: string, w: string)
    requires Word(isAlnum, w) && !isAlnum('-')
    ensures Words(isAlnum, j + "-" + w) == Words(isAlnum, j) + [w]
  {
    assert j + "-" == j + ['-'];
    WordsAppend(isAlnum, j, '-');
    WordsAfterGap(isAlnum, j + ['-'], w);
  }

  /** The normalised form of a text is the one tidy text with the same words. */
  lemma DashedIsTheTidyForm(isAlnum: char -> bool, s: string, t: string)
    requires !isAlnum('-')
    ensures t == Dashed(isAlnum, s) <==> Tidy(isAlnum, t) && Words(isAlnum, t) == Words(isAlnum, s)
  {
    JoinIsTidy(isAlnum, Words(isAlnum, s));
    WordsOfJoin(isAlnum, Words(isAlnum, s));
    if Tidy(isAlnum, t) {
      TidyIsFixed(isAlnum, t);
    }
  }

  function Letters(isAlnum: char -> bool, s: string): string {
    if s == "" then ""
    else Letters(isAlnum, s[..|s| - 1]) + if isAlnum(s[|s| - 1]) then [s[|s| - 1]] else ""
  }

  lemma ConcatExtend(ws: seq<string>, c: char)
    requires ws != []
    ensures Concat(ws[..|ws| - 1] + [ws[|ws| - 1] + [c]]) == Concat(ws) + [c]
  {
    var init, w := ws[..|ws| - 1], ws[|ws| - 1];
    ConcatAppend(init, w + [c]);
    assert Concat(init) + (w + [c]) == (Concat(init) + w) + [c];
  }

  lemma {:induction false} WordsAreTheLetters(isAlnum: char -> bool, s: string)
    ensures Concat(Words(isAlnum, s)) == Letters(isAlnum, s)
  {
    if s != "" {
      var init, c := s[..|s| - 1], s[|s| - 1];
      var ws := Words(isAlnum, init);
      WordsAreTheLetters(isAlnum, init);
      if !isAlnum(c) {
        assert Letters(isAlnum, init) + "" == Letters(isAlnum, init);
      } else if init != "" && isAlnum(init[|init| - 1]) {
        ConcatExtend(ws, c);
      } else {
        ConcatAppend(ws, [c]);
      }
    }
  }

  /** Normalising keeps the word characters, in order. */
  lemma DashedKeepsLetters(isAlnum: char -> bool, s: string)
    requires !isAlnum('-')
    ensures Letters(isAlnum, Dashed(isAlnum, s)) == Letters(isAlnum, s)
  {
    WordsOfJoin(isAlnum, Words(isAlnum, s));
    WordsAreTheLetters(isAlnum, s);
    WordsAreTheLetters(isAlnum, Dashed(isAlnum, s));
  }

  /** Some words after one more character. */
  function Grown(ws: seq<string>, c: char, letter: bool, joins: bool): seq<string> {
    if !letter then ws
    else if joins && ws != [] then ws[..|ws| - 1] + [ws[|ws| - 1] + [c]]
    else ws + [[c]]
  }

  predicate EndsInWord(isAlnum: char -> bool, s: string) {
    s != "" && isAlnum(s[|s| - 1])
  }

  lemma WordsGrow(isAlnum: char -> bool, s: string, c: char)
    ensures Words(isAlnum, s + [c]) == Grown(Words(isAlnum, s), c, isAlnum(c), EndsInWord(isAlnum, s))
    ensures EndsInWord(isAlnum, s) ==> Words(isAlnum, s) != []
  {
    WordsAppend(isAlnum, s, c);
  }

  lemma GrownBehind(us: seq<string>, vs: seq<string>, c: char, letter: bool, joins: bool)
    requires joins ==> vs != []
    ensures Grown(us + vs, c, letter, joins) == us + Grown(vs, c, letter, joins)
  {}

  lemma EndsBehind(isAlnum: char -> bool, x: string, y: string)
    requires !EndsInWord(isAlnum, x)
    ensures EndsInWord(isAlnum, x + y) <==> EndsInWord(isAlnum, y)
  {
    if y == "" {
      assert x + y == x;
    } else {
      LastOf(x, y);
    }
  }

  lemma {:induction false} WordsBehindGap(isAlnum: char -> bool, x: string, y: string)
    requires !EndsInWord(isAlnum, x)
    ensures Words(isAlnum, x + y) == Words(isAlnum, x) + Words(isAlnum, y)
  {
    if y == "" {
      assert x + y == x;
    } else {
      var init, c := y[..|y| - 1], y[|y| - 1];
      WordsBehindGap(isAlnum, x, init);
      Regroup(x, y);
      WordsGrow(isAlnum, x + init, c);
      WordsGrow(isAlnum, init, c);
      EndsBehind(isAlnum, x, init);
      GrownBehind(Words(isAlnum, x), Words(isAlnum, init), c, isAlnum(c), EndsInWord(isAlnum, init));
    }
  }

  lemma WordsAcrossGap(isAlnum: char -> bool, x: string, gap: string, y: string)
    requires gap != "" && NoLetters(isAlnum, gap)
    ensures Words(isAlnum, x + gap + y) == Words(isAlnum, x) + Words(isAlnum, y)
  {
    WordsBehindGap(isAlnum, x + gap, y);
    WordsDropSuffix(isAlnum, x, gap);
  }

  lemma {:induction false} JoinBoth(us: seq<string>, vs: seq<string>)
    requires us != [] && vs != []
    ensures JoinDashed(us + vs) == JoinDashed(us) + "-" + JoinDashed(vs)
  {
    var init, last := vs[..|vs| - 1], vs[|vs| - 1];
    if init == [] {
      assert us + vs == us + [last];
      JoinAppend(us, last);
    } else {
      JoinBoth(us, init);
      assert us + vs == (us + init) + [last];
      JoinAppend(us + init, last);
      var u := JoinDashed(us);
      assert u + "-" + JoinDashed(init) + "-" + last == u + "-" + (JoinDashed(init) + "-" + last);
    }
  }

  lemma {:induction false} WordItself(isAlnum: char -> bool, w: string)
    requires Word(isAlnum, w)
    ensures Words(isAlnum, w) == [w]
  {
    var init, c := w[..|w| - 1], w[|w| - 1];
    assert w == init + [c];
    WordsAppend(isAlnum, init, c);
    if init != "" {
      WordItself(isAlnum, init);
    } else {
      assert Words(isAlnum, init) == [] && w == [c];
    }
  }

  /** A run of word characters stays as it is, and a gap between two texts that have some becomes one
      dash; a gap at either end disappears. */
  lemma GapsBecomeDashes(isAlnum: char -> bool, x: string, gap: string, y: string)
    requires gap != "" && NoLetters(isAlnum, gap)
    ensures var dx, dy := Dashed(isAlnum, x), Dashed(isAlnum, y);
            && (Word(isAlnum, x) ==> dx == x)
            && (Words(isAlnum, x) != [] && Words(isAlnum, y) != [] ==> Dashed(isAlnum, x + gap + y) == dx + "-" + dy)
            && Dashed(isAlnum, gap + y) == dy && Dashed(isAlnum, x + gap) == dx
  {
    WordsAcrossGap(isAlnum, x, gap, y);
    WordsDropPrefix(isAlnum, gap, y);
    WordsDropSuffix(isAlnum, x, gap);
    if Words(isAlnum, x) != [] && Words(isAlnum, y) != [] {
      JoinBoth(Words(isAlnum, x), Words(isAlnum, y));
    }
    if Word(isAlnum, x) {
      WordItself(isAlnum, x);
    }
  }

  // ---------------------------------------------------------------- trimming does not matter

  /** White space lowers to no word character, and dashes are not word characters. */
  ghost predicate Sane(a: Alphabet) {
    && !a.isAlnum('-')
    && (forall c, i :: a.isSpace(c) && 0 <= i < |a.lower(c)| ==> !a.isAlnum(a.lower(c)[i]))
  }

  predicate NoLetters(isAlnum: char -> bool, s: string) {
    forall i :: 0 <= i < |s| ==> !isAlnum(s[i])
  }

  lemma WordsDropPrefix(isAlnum: char -> bool, u: string, v: string)
    requires NoLetters(isAlnum, u)
    ensures Words(isAlnum, u + v) == Words(isAlnum, v)
  {
    WordsBehindGap(isAlnum, u, v);
    NoWordsNoAlnum(isAlnum, u);
  }

  lemma {:induction false} WordsDropSuffix(isAlnum: char -> bool, v: string, u: string)
    requires NoLetters(isAlnum, u)
    ensures Words(isAlnum, v + u) == Words(isAlnum, v)
  {
    if u == "" {
      assert v + u == v;
    } else {
      var init, c := u[..|u| - 1], u[|u| - 1];
      WordsDropSuffix(isAlnum, v, init);
      assert v + u == (v + init) + [c];
      WordsAppend(isAlnum, v + init, c);
    }
  }

  lemma {:induction false} LoweredAppend(a: Alphabet, s: string, t: string)
    ensures Lowered(a, s + t) == Lowered(a, s) + Lowered(a, t)
  {
    if t == "" {
      assert s + t == s;
    } else {
      LoweredAppend(a, s, t[..|t| - 1]);
      assert (s + t)[..|s + t| - 1] == s + t[..|t| - 1];
    }
  }

  lemma LoweredOne(a: Alphabet, c: char)
    ensures Lowered(a, [c]) == a.lower(c)
  {
    assert [c][..0] == "";
  }

  lemma {:induction false} TrimLeftKeepsWords(a: Alphabet, s: string)
    requires Sane(a)
    ensures Words(a.isAlnum, Lowered(a, TrimLeft(a.isSpace, s))) == Words(a.isAlnum, Lowered(a, s))
  {
    if s != "" && a.isSpace(s[0]) {
      TrimLeftKeepsWords(a, s[1..]);
      assert s == [s[0]] + s[1..];
      LoweredAppend(a, [s[0]], s[1..]);
      LoweredOne(a, s[0]);
      WordsDropPrefix(a.isAlnum, a.lower(s[0]), Lowered(a, s[1..]));
    }
  }

  lemma {:induction false} TrimRightKeepsWords(a: Alphabet, s: string)
    requires Sane(a)
    ensures Words(a.isAlnum, Lowered(a, TrimRight(a.isSpace, s))) == Words(a.isAlnum, Lowered(a, s))
  {
    if s != "" && a.isSpace(s[|s| - 1]) {
      TrimRightKeepsWords(a, s[..|s| - 1]);
      WordsDropSuffix(a.isAlnum, Lowered(a, s[..|s| - 1]), a.lower(s[|s| - 1]));
    }
  }

  /** Normalising does not depend on whether, or by which notion of white space, the name was
      trimmed first. */
  lemma TrimmingIsIrrelevant(a: Alphabet, model: string)
    requires Sane(a)
    ensures Normalized(a, model) == Dashed(a.isAlnum, Lowered(a, model))
  {
    TrimLeftKeepsWords(a, model);
    TrimRightKeepsWords(a, TrimLeft(a.isSpace, model));
  }

  lemma {:induction false} LettersAppend(isAlnum: char -> bool, x: string, y: string)
    ensures Letters(isAlnum, x + y) == Letters(isAlnum, x) + Letters(isAlnum, y)
  {
    if y == "" {
      assert x + y == x;
    } else {
      var init, c := y[..|y| - 1], y[|y| - 1];
      LettersAppend(isAlnum, x, init);
      assert (x + y)[..|x + y| - 1] == x + init;
    }
  }

  /** The letters of a name are those of its lowered characters, one after the other. */
  lemma LettersAreLowered(a: Alphabet, model: string, c: char)
    requires Sane(a)
    ensures Letters(a.isAlnum, Normalized(a, "")) == ""
    ensures Letters(a.isAlnum, Normalized(a, model + [c])) ==
            Letters(a.isAlnum, Normalized(a, model)) + Letters(a.isAlnum, a.lower(c))
  {
    TrimmingIsIrrelevant(a, model);
    TrimmingIsIrrelevant(a, model + [c]);
    DashedKeepsLetters(a.isAlnum, Lowered(a, model));
    DashedKeepsLetters(a.isAlnum, Lowered(a, model + [c]));
    LoweredAppend(a, model, [c]);
    LoweredOne(a, c);
    LettersAppend(a.isAlnum, Lowered(a, model), a.lower(c));
    EmptyName(a);
  }

  lemma EmptyName(a: Alphabet)
    ensures Normalized(a, "") == ""
  {
    assert Trim(a.isSpace, "") == "" && Words(a.isAlnum, "") == [];
  }

  lemma {:induction false} SameLowered(a: Alphabet, b: Alphabet, s: string)
    requires a.lower == b.lower
    ensures Lowered(a, s) == Lowered(b, s)
  {
    if s != "" {
      SameLowered(a, b, s[..|s| - 1]);
    }
  }

  /** Two languages that share the word characters and the lowering agree on every name, even if
      they disagree on what white space is. */
  lemma LanguagesAgree(go: Alphabet, python: Alphabet, model: string)
    requires Sane(go) && Sane(python) && go.isAlnum == python.isAlnum && go.lower == python.lower
    ensures Normalized(go, model) == Normalized(python, model)
  {
    TrimmingIsIrrelevant(go, model);
    TrimmingIsIrrelevant(python, model);
    SameLowered(go, python, model);
  }

  // ---------------------------------------------------------------- normalising twice

  /** Lowering leaves dashes and lowered characters alone. */
  ghost predicate LowersOnce(a: Alphabet) {
    && a.lower('-') == "-"
    && forall c, i :: 0 <= i < |a.lower(c)| ==> a.lower(a.lower(c)[i]) == [a.lower(c)[i]]
  }

  ghost predicate Stable(a: Alphabet, s: string) {
    forall i :: 0 <= i < |s| ==> a.lower(s[i]) == [s[i]]
  }

  lemma {:induction false} LoweredIsStable(a: Alphabet, s: string)
    requires LowersOnce(a)
    ensures Stable(a, Lowered(a, s))
  {
    if s != "" {
      LoweredIsStable(a, s[..|s| - 1]);
    }
  }

  lemma {:induction false} StableIsFixed(a: Alphabet, s: string)
    requires Stable(a, s)
    ensures Lowered(a, s) == s
  {
    if s != "" {
      StableIsFixed(a, s[..|s| - 1]);
    }
  }

  lemma {:induction false} WordsAreStable(a: Alphabet, s: string)
    requires Stable(a, s)
    ensures forall i :: 0 <= i < |Words(a.isAlnum, s)| ==> Stable(a, Words(a.isAlnum, s)[i])
  {
    if s != "" {
      WordsAreStable(a, s[..|s| - 1]);
    }
  }

  lemma {:induction false} JoinIsStable(a: Alphabet, ws: seq<string>)
    requires a.lower('-') == "-" && forall i :: 0 <= i < |ws| ==> Stable(a, ws[i])
    ensures Stable(a, JoinDashed(ws))
  {
    if |ws| > 1 {
      JoinIsStable(a, ws[..|ws| - 1]);
      assert Stable(a, ws[|ws| - 1]);
    }
  }

  /** Normalising a normalised name changes nothing. */
  lemma NormalizingTwice(a: Alphabet, model: string)
    requires Sane(a) && LowersOnce(a)
    ensures Normalized(a, Normalized(a, model)) == Normalized(a, model)
  {
    var once := Normalized(a, model);
    var text := Lowered(a, Trim(a.isSpace, model));
    LoweredIsStable(a, Trim(a.isSpace, model));
    WordsAreStable(a, text);
    JoinIsStable(a, Words(a.isAlnum, text));
    StableIsFixed(a, once);
    TrimmingIsIrrelevant(a, once);
    JoinIsTidy(a.isAlnum, Words(a.isAlnum, text));
    TidyIsFixed(a.isAlnum, once);
  }

  // ---------------------------------------------------------------- collection names

  function ModelPart(normalized: string): string {
    if normalized == "" then "" else "-" + normalized
  }

  function SizePart(vectorSize: int): string {
    if vectorSize > 0 then "-" + PrintNat(vectorSize) else ""
  }

  lemma FourParts(x: string, y: string, z: string)
    ensures x + "-" + y + "-" + z == x + (("-" + y) + ("-" + z))
  {}

  lemma NameHasThreeParts(a: Alphabet, prefix: string, model: string, vectorSize: int)
    ensures BuildEmbeddingCollection(a, prefix, model, vectorSize) ==
            Base(a, prefix) + (ModelPart(Normalized(a, model)) + SizePart(vectorSize))
  {
    var base, m := Base(a, prefix), Normalized(a, model);
    if m != "" && vectorSize > 0 {
      FourParts(base, m, PrintNat(vectorSize));
    } else if m != "" {
      assert base + "-" + m == base + (("-" + m) + "");
    } else if vectorSize > 0 {
      assert base + "-" + PrintNat(vectorSize) == base + ("" + ("-" + PrintNat(vectorSize)));
    } else {
      assert base == base + ("" + "");
    }
  }

  /** The first part of a name: the given prefix without the white space around it, or the default. */
  predicate StartsWith(name: string, base: string) {
    base <= name && (|name| > |base| ==> name[|base|] == '-')
  }

  /** A name starts with the trimmed prefix, "vectors" if that is blank, and goes on with nothing or
      with a dash. */
  lemma NameStartsWithPrefix(a: Alphabet, prefix: string, model: string, vectorSize: int, t: string)
    requires TrimmedFrom(a.isSpace, prefix, t)
    ensures var name, base := BuildEmbeddingCollection(a, prefix, model, vectorSize), if t == "" then "vectors" else t;
            && StartsWith(name, base)
            && name == base + (ModelPart(Normalized(a, model)) + SizePart(vectorSize))
            && (name == base <==> Normalized(a, model) == "" && vectorSize <= 0)
  {
    TrimIff(a.isSpace, prefix, t);
    NameHasThreeParts(a, prefix, model, vectorSize);
  }

  /** For one model and size, two names are equal exactly when the trimmed prefixes are, a blank one
      counting as "vectors". */
  lemma PrefixesCollideIff(a: Alphabet, prefix: string, prefix': string, model: string, size: int, t: string,
                           t': string)
    requires TrimmedFrom(a.isSpace, prefix, t) && TrimmedFrom(a.isSpace, prefix', t')
    ensures BuildEmbeddingCollection(a, prefix, model, size) == BuildEmbeddingCollection(a, prefix', model, size) <==>
            (if t == "" then "vectors" else t) == (if t' == "" then "vectors" else t')
  {
    var rest := ModelPart(Normalized(a, model)) + SizePart(size);
    NameStartsWithPrefix(a, prefix, model, size, t);
    NameStartsWithPrefix(a, prefix', model, size, t');
    SameRest(if t == "" then "vectors" else t, if t' == "" then "vectors" else t', rest);
  }

  lemma SameRest(x: string, y: string, rest: string)
    ensures x + rest == y + rest <==> x == y
  {
    if x + rest == y + rest {
      assert |x| == |y| && (x + rest)[..|x|] == x && (y + rest)[..|y|] == y;
    }
  }

  lemma CancelPrefix(p: string, s: string, t: string)
    ensures p + s == p + t <==> s == t
  {
    assert (p + s)[|p|..] == s && (p + t)[|p|..] == t;
  }

  lemma DigitsHaveNoDash(d: string)
    requires AllDigits(d)
    ensures '-' !in d
  {}

  /** What follows the last dash is determined. */
  lemma LastDash(x: string, d: string, y: string, e: string)
    requires '-' !in d && '-' !in e
    requires x + ("-" + d) == y + ("-" + e)
    ensures x == y && d == e
  {
    var s, t := x + ("-" + d), y + ("-" + e);
    assert s[|x|] == '-' && t[|y|] == '-';
    assert forall i :: |x| < i < |s| ==> s[i] == d[i - |x| - 1];
    assert forall i :: |y| < i < |s| ==> s[i] == e[i - |y| - 1];
    assert |x| == |y|;
    assert x == s[..|x|] && y == t[..|y|];
    assert d == s[|x| + 1..] && e == t[|y| + 1..];
  }

  /** One name carries a size and the other's model ends in that very number. */
  predicate Disguised(m: string, size: int, m': string, size': int) {
    size > 0 && size' <= 0 && m' == if m == "" then PrintNat(size) else m + "-" + PrintNat(size)
  }

  predicate SameSize(size: int, size': int) {
    size == size' || (size <= 0 && size' <= 0)
  }

  lemma PartsDisguised(m: string, size: int, m': string, size': int)
    requires size > 0 && size' <= 0
    ensures ModelPart(m) + SizePart(size) == ModelPart(m') + SizePart(size') <==> Disguised(m, size, m', size')
  {
    var whole := (if m == "" then "" else m + "-") + PrintNat(size);
    assert ModelPart(m) + SizePart(size) == "-" + whole by {
      if m == "" {
        assert "" + ("-" + PrintNat(size)) == "-" + ("" + PrintNat(size));
      } else {
        assert ("-" + m) + ("-" + PrintNat(size)) == "-" + ((m + "-") + PrintNat(size));
      }
    }
    assert m == "" ==> whole == PrintNat(size);
    assert ModelPart(m') + SizePart(size') == ModelPart(m');
    if m' != "" {
      CancelPrefix("-", whole, m');
    }
  }

  lemma PartsBothSized(m: string, size: int, m': string, size': int)
    requires size > 0 && size' > 0
    ensures ModelPart(m) + SizePart(size) == ModelPart(m') + SizePart(size') <==> m == m' && size == size'
  {
    var d, e := PrintNat(size), PrintNat(size');
    if ModelPart(m) + ("-" + d) == ModelPart(m') + ("-" + e) {
      DigitsHaveNoDash(d);
      DigitsHaveNoDash(e);
      LastDash(ModelPart(m), d, ModelPart(m'), e);
      PrintNatInjective(size, size');
      assert m != "" ==> m == ModelPart(m)[1..];
      assert m' != "" ==> m' == ModelPart(m')[1..];
    }
  }

  lemma PartsUnsized(m: string, m': string)
    ensures ModelPart(m) == ModelPart(m') <==> m == m'
  {
    assert m != "" ==> m == ModelPart(m)[1..];
    assert m' != "" ==> m' == ModelPart(m')[1..];
  }

  /** Under one prefix, two collections share a name exactly when the models normalise alike and
      the sizes agree, or when the size of one is disguised as the last word of the other's model. */
  lemma NamesCollideIff(a: Alphabet, prefix: string, model: string, size: int, model': string, size': int)
    ensures var m, m' := Normalized(a, model), Normalized(a, model');
            BuildEmbeddingCollection(a, prefix, model, size) == BuildEmbeddingCollection(a, prefix, model', size') <==>
            || (m == m' && SameSize(size, size'))
            || Disguised(m, size, m', size')
            || Disguised(m', size', m, size)
  {
    var m, m' := Normalized(a, model), Normalized(a, model');
    NameHasThreeParts(a, prefix, model, size);
    NameHasThreeParts(a, prefix, model', size');
    CancelPrefix(Base(a, prefix), ModelPart(m) + SizePart(size), ModelPart(m') + SizePart(size'));
    if size > 0 && size' > 0 {
      PartsBothSized(m, size, m', size');
    } else if size > 0 {
      PartsDisguised(m, size, m', size');
    } else if size' > 0 {
      PartsDisguised(m', size', m, size);
    } else {
      PartsUnsized(m, m');
      assert ModelPart(m) + "" == ModelPart(m) && ModelPart(m') + "" == ModelPart(m');
    }
  }

  /** With both sizes known, names are injective. */
  lemma SizedNamesAreInjective(a: Alphabet, prefix: string, model: string, size: int, model': string, size': int)
    requires size > 0 && size' > 0
    requires BuildEmbeddingCollection(a, prefix, model, size) == BuildEmbeddingCollection(a, prefix, model', size')
    ensures Normalized(a, model) == Normalized(a, model') && size == size'
  {
    NamesCollideIff(a, prefix, model, size, model', size');
  }

  function AsciiAlnum(c: char): bool {
    'a' <= c <= 'z' || '0' <= c <= '9'
  }

  function AsciiLower(c: char): string {
    [c]
  }

  function AsciiSpace(c: char): bool {
    c == ' '
  }

  /** A small alphabet for concrete names in lower case. */
  const ASCII := Alphabet(AsciiAlnum, AsciiLower, AsciiSpace)

  lemma TidyIsNormal(a: Alphabet, s: string)
    requires Sane(a) && Tidy(a.isAlnum, s) && Stable(a, s)
    ensures Normalized(a, s) == s
  {
    TrimmingIsIrrelevant(a, s);
    StableIsFixed(a, s);
    TidyIsFixed(a.isAlnum, s);
  }

  lemma UnsizedNamesCollide(a: Alphabet, prefix: string, model: string, size: int, model': string, size': int)
    requires size > 0 && size' <= 0 && Normalized(a, model) != ""
    requires Normalized(a, model') == Normalized(a, model) + "-" + PrintNat(size)
    ensures BuildEmbeddingCollection(a, prefix, model, size) == BuildEmbeddingCollection(a, prefix, model', size')
    ensures Normalized(a, model) != Normalized(a, model')
  {
    NamesCollideIff(a, prefix, model, size, model', size');
  }

  lemma ExampleNamesAreTidy()
    ensures Tidy(AsciiAlnum, "a") && Stable(ASCII, "a")
    ensures Tidy(AsciiAlnum, "a-5") && Stable(ASCII, "a-5")
  {
    var long := "a-5";
    assert AsciiAlnum(long[0]) && long[1] == '-' && AsciiAlnum(long[2]);
  }

  /** Without a size it fails: model "a" with size 5 and model "a-5" without one. */
  lemma UnsizedCollision()
    ensures BuildEmbeddingCollection(ASCII, "v", "a", 5) == BuildEmbeddingCollection(ASCII, "v", "a-5", 0)
    ensures Normalized(ASCII, "a") != Normalized(ASCII, "a-5")
  {
    ExampleNamesAreTidy();
    TidyIsNormal(ASCII, "a");
    TidyIsNormal(ASCII, "a-5");
    assert PrintNat(5) == "5";
    UnsizedNamesCollide(ASCII, "v", "a", 5, "a-5", 0);
  }

  /** Both languages name the same collection when they also trim the prefix alike. */
  lemma LanguagesShareCollections(go: Alphabet, python: Alphabet, prefix: string, model: string, size: int)
    requires Sane(go) && Sane(python) && go.isAlnum == python.isAlnum && go.lower == python.lower
    requires Trim(go.isSpace, prefix) == Trim(python.isSpace, prefix)
    ensures BuildEmbeddingCollection(go, prefix, model, size) == BuildEmbeddingCollection(python, prefix, model, size)
  {
    LanguagesAgree(go, python, model);
  }
}
