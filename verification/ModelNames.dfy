/** Normalising a model name to a collection-name segment: the scanners of the Go contracts and
    of the Python ingestion service. */
module ModelNames {
  import opened Decimal
  import opened Trimming

  /** The character classes a language supplies.  Lowering may turn one character into several. */
  datatype Alphabet = Alphabet(isAlnum: char -> bool, lower: char -> string, isSpace: char -> bool)

  function Lowered(a: Alphabet, s: string): string {
    if s == "" then "" else Lowered(a, s[..|s| - 1]) + a.lower(s[|s| - 1])
  }

  function IsDash(c: char): bool {
    c == '-'
  }

  // ---------------------------------------------------------------- the words of a name

  predicate Word(isAlnum: char -> bool, w: string) {
    w != "" && forall i :: 0 <= i < |w| ==> isAlnum(w[i])
  }

  predicate AllWords(isAlnum: char -> bool, ws: seq<string>) {
    forall i :: 0 <= i < |ws| ==> Word(isAlnum, ws[i])
  }

  /** The maximal alphanumeric runs of a string, in order. */
  function Words(isAlnum: char -> bool, s: string): (ws: seq<string>)
    ensures AllWords(isAlnum, ws)
    ensures s != "" && isAlnum(s[|s| - 1]) ==> ws != []
  {
    if s == "" then []
    else
      var init, c := s[..|s| - 1], s[|s| - 1];
      var ws := Words(isAlnum, init);
      if !isAlnum(c) then ws
      else if init != "" && isAlnum(init[|init| - 1]) then ws[..|ws| - 1] + [ws[|ws| - 1] + [c]]
      else ws + [[c]]
  }

  function JoinDashed(ws: seq<string>): string {
    if ws == [] then ""
    else if |ws| == 1 then ws[0]
    else JoinDashed(ws[..|ws| - 1]) + "-" + ws[|ws| - 1]
  }

  /** The normalised name: the words of the lowered text joined by single dashes. */
  function Dashed(isAlnum: char -> bool, s: string): string {
    JoinDashed(Words(isAlnum, s))
  }

  function Normalized(a: Alphabet, model: string): string {
    Dashed(a.isAlnum, Lowered(a, Trim(a.isSpace, model)))
  }

  // ---------------------------------------------------------------- the scanner

  /** A text between an optional leading and an optional trailing dash. */
  function Framed(lead: bool, text: string, trail: bool): string {
    (if lead then "-" else "") + text + if trail then "-" else ""
  }

  /** What the scanner has built before the final trim: the words so far, a dash in front when the
      text does not begin with a word, and one at the end when a word is over. */
  function Scanned(isAlnum: char -> bool, s: string): string {
    if s == "" then ""
    else if Words(isAlnum, s) == [] then "-"
    else Framed(!isAlnum(s[0]), Dashed(isAlnum, s), !isAlnum(s[|s| - 1]))
  }

  lemma FramedGrow(lead: bool, text: string, more: string)
    ensures Framed(lead, text + more, false) == Framed(lead, text, false) + more
    ensures Framed(lead, text + "-" + more, false) == Framed(lead, text, true) + more
    ensures Framed(lead, text, true) == Framed(lead, text, false) + "-"
    ensures Framed(true, more, false) == "-" + more
    ensures Framed(false, text, false) == text
  {}

  lemma JoinExtend(ws: seq<string>, c: char)
    requires ws != []
    ensures JoinDashed(ws[..|ws| - 1] + [ws[|ws| - 1] + [c]]) == JoinDashed(ws) + [c]
  {
    var ws' := ws[..|ws| - 1] + [ws[|ws| - 1] + [c]];
    assert ws'[..|ws'| - 1] == ws[..|ws| - 1];
  }

  lemma JoinAppend(ws: seq<string>, w: string)
    requires ws != []
    ensures JoinDashed(ws + [w]) == JoinDashed(ws) + "-" + w
  {
    assert (ws + [w])[..|ws|] == ws;
  }

  lemma WordsAppend(isAlnum: char -> bool, s: string, c: char)
    ensures var ws := Words(isAlnum, s);
            Words(isAlnum, s + [c]) ==
              if !isAlnum(c) then ws
              else if s != "" && isAlnum(s[|s| - 1]) then ws[..|ws| - 1] + [ws[|ws| - 1] + [c]]
              else ws + [[c]]
  {
    assert (s + [c])[..|s|] == s;
  }

  lemma ScanLetter(isAlnum: char -> bool, s: string, c: char)
    requires isAlnum(c)
    ensures Scanned(isAlnum, s + [c]) == Scanned(isAlnum, s) + [c]
  {
    var ws := Words(isAlnum, s);
    WordsAppend(isAlnum, s, c);
    if s == "" {
      FramedGrow(false, [c], "");
    } else if ws == [] {
      NoWordsNoAlnum(isAlnum, s);
      FramedGrow(true, "", [c]);
    } else {
      FramedGrow(!isAlnum(s[0]), JoinDashed(ws), [c]);
      if isAlnum(s[|s| - 1]) {
        JoinExtend(ws, c);
      } else {
        JoinAppend(ws, [c]);
      }
    }
  }

  lemma ScanGap(isAlnum: char -> bool, s: string, c: char)
    requires !isAlnum(c)
    ensures Scanned(isAlnum, s + [c]) == Scanned(isAlnum, s) + if s != "" && !isAlnum(s[|s| - 1]) then "" else "-"
  {
    var ws := Words(isAlnum, s);
    WordsAppend(isAlnum, s, c);
    if s == "" {
    } else if ws == [] {
      NoWordsNoAlnum(isAlnum, s);
    } else {
      FramedGrow(!isAlnum(s[0]), JoinDashed(ws), "");
    }
  }

  lemma {:induction false} NoWordsNoAlnum(isAlnum: char -> bool, s: string)
    ensures Words(isAlnum, s) == [] <==> forall i :: 0 <= i < |s| ==> !isAlnum(s[i])
  {
    if s != "" {
      NoWordsNoAlnum(isAlnum, s[..|s| - 1]);
    }
  }

  lemma JoinEnds(isAlnum: char -> bool, ws: seq<string>)
    requires ws != [] && AllWords(isAlnum, ws)
    ensures var j := JoinDashed(ws);
            j != "" && isAlnum(j[0]) && isAlnum(j[|j| - 1])
  {
    if |ws| > 1 {
      assert Word(isAlnum, ws[|ws| - 1]);
      JoinEnds(isAlnum, ws[..|ws| - 1]);
    } else {
      assert Word(isAlnum, ws[0]);
    }
  }

  lemma TrimRightDash(t: string)
    requires t != "" && t[|t| - 1] != '-'
    ensures TrimRight(IsDash, t) == t && TrimRight(IsDash, t + "-") == t
  {
    assert (t + "-")[..|t|] == t;
  }

  lemma TrimLeftDash(t: string)
    requires t != "" && t[0] != '-'
    ensures TrimLeft(IsDash, t) == t && TrimLeft(IsDash, "-" + t) == t
  {
    assert ("-" + t)[1..] == t;
  }

  lemma TrimFramed(lead: bool, text: string, trail: bool)
    requires text != "" && text[0] != '-' && text[|text| - 1] != '-'
    ensures Trim(IsDash, Framed(lead, text, trail)) == text
  {
    var tail := text + if trail then "-" else "";
    assert Framed(lead, text, trail) == (if lead then "-" else "") + tail;
    assert tail[0] == text[0];
    TrimLeftDash(tail);
    TrimRightDash(text);
    assert !lead ==> "" + tail == tail;
    assert !trail ==> text + "" == text;
  }

  /** Trimming dashes from what was scanned leaves the joined words. */
  lemma TrimScanned(isAlnum: char -> bool, s: string)
    requires !isAlnum('-')
    ensures Trim(IsDash, Scanned(isAlnum, s)) == Dashed(isAlnum, s)
  {
    var ws := Words(isAlnum, s);
    if s != "" && ws != [] {
      JoinEnds(isAlnum, ws);
      TrimFramed(!isAlnum(s[0]), JoinDashed(ws), !isAlnum(s[|s| - 1]));
    } else if s != "" {
      assert "-"[1..] == "";
    }
  }

  /** A scanner step adds a character of a word, or one dash for a whole gap. */
  function StepOutput(isAlnum: char -> bool, text: string, i: nat): string
    requires i < |text|
  {
    if isAlnum(text[i]) then [text[i]] else if i > 0 && !isAlnum(text[i - 1]) then "" else "-"
  }

  lemma ScanNext(isAlnum: char -> bool, text: string, i: nat)
    requires i < |text|
    ensures Scanned(isAlnum, text[..i + 1]) == Scanned(isAlnum, text[..i]) + StepOutput(isAlnum, text, i)
  {
    assert text[..i + 1] == text[..i] + [text[i]];
    if isAlnum(text[i]) {
      ScanLetter(isAlnum, text[..i], text[i]);
    } else {
      ScanGap(isAlnum, text[..i], text[i]);
    }
  }

  /** The Go scanner. */
  method NormalizeEmbeddingModelName(a: Alphabet, model: string) returns (name: string)
    requires !a.isAlnum('-')
    ensures name == Normalized(a, model)
  {
    var text := Lowered(a, Trim(a.isSpace, model));
    if text == "" {
      return "";
    }
    var b := "";
    var lastDash := false;
    for i := 0 to |text|
      invariant b == Scanned(a.isAlnum, text[..i])
      invariant lastDash <==> i > 0 && !a.isAlnum(text[i - 1])
    {
      ScanNext(a.isAlnum, text, i);
      if a.isAlnum(text[i]) {
        b := b + [text[i]];
        lastDash := false;
      } else if !lastDash {
        b := b + "-";
        lastDash := true;
      }
    }
    assert text[..|text|] == text;
    TrimScanned(a.isAlnum, text);
    name := Trim(IsDash, b);
  }

  function Concat(parts: seq<string>): string {
    if parts == [] then "" else Concat(parts[..|parts| - 1]) + parts[|parts| - 1]
  }

  lemma ConcatAppend(parts: seq<string>, part: string)
    ensures Concat(parts + [part]) == Concat(parts) + part
  {
    assert (parts + [part])[..|parts|] == parts;
  }

  /** The Python scanner: a list of pieces, joined at the end, and no early exit. */
  method NormalizeModelName(a: Alphabet, model: string) returns (name: string)
    requires !a.isAlnum('-')
    ensures name == Normalized(a, model)
  {
    var text := Lowered(a, Trim(a.isSpace, model));
    var normalized: seq<string> := [];
    var lastDash := false;
    for i := 0 to |text|
      invariant Concat(normalized) == Scanned(a.isAlnum, text[..i])
      invariant lastDash <==> i > 0 && !a.isAlnum(text[i - 1])
    {
      ScanNext(a.isAlnum, text, i);
      if a.isAlnum(text[i]) {
        ConcatAppend(normalized, [text[i]]);
        normalized := normalized + [[text[i]]];
        lastDash := false;
      } else if !lastDash {
        ConcatAppend(normalized, "-");
        normalized := normalized + ["-"];
        lastDash := true;
      }
    }
    assert text[..|text|] == text;
    TrimScanned(a.isAlnum, text);
    name := Trim(IsDash, Concat(normalized));
  }

  // ---------------------------------------------------------------- collection names

  const DEFAULT_PREFIX := "vectors"

  function Base(a: Alphabet, prefix: string): string {
    var base := Trim(a.isSpace, prefix);
    if base == "" then DEFAULT_PREFIX else base
  }

  /** The collection of a model: the parts that are known, joined by dashes. */
  function BuildEmbeddingCollection(a: Alphabet, prefix: string, model: string, vectorSize: int): string {
    var base, normalized := Base(a, prefix), Normalized(a, model);
    if normalized != "" && vectorSize > 0 then base + "-" + normalized + "-" + PrintNat(vectorSize)
    else if normalized != "" then base + "-" + normalized
    else if vectorSize > 0 then base + "-" + PrintNat(vectorSize)
    else base
  }
}
