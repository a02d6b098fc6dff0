/** What normalisation guarantees, and when a second one changes nothing. */
module PlannerProperties {
  import opened Planner
  import opened Trimming

  /** Upper-casing is done once, keeps white space apart from the rest, and leaves capitals alone. */
  ghost predicate Sane(t: Text) {
    && (forall c :: t.upper(t.upper(c)) == t.upper(c))
    && (forall c :: t.isSpace(t.upper(c)) <==> t.isSpace(c))
    && (forall c :: 'A' <= c <= 'Z' ==> t.upper(c) == c && !t.isSpace(c))
    && (forall c :: 'a' <= c <= 'z' ==> !t.isSpace(c))
  }

  lemma TrimmedIsFixed(t: Text, s: string)
    requires s == "" || (!t.isSpace(s[0]) && !t.isSpace(s[|s| - 1]))
    ensures TrimSpace(t, s) == s
  {}

  lemma TrimSpaceEnds(t: Text, s: string)
    ensures var r := TrimSpace(t, s);
            r == "" || (!t.isSpace(r[0]) && !t.isSpace(r[|r| - 1]))
  {}

  lemma TokenTwice(t: Text, v: string)
    requires Sane(t)
    ensures NormalizeToken(t, NormalizeToken(t, v)) == NormalizeToken(t, v)
  {
    TrimSpaceEnds(t, v);
    var token := NormalizeToken(t, v);
    TrimmedIsFixed(t, token);
    assert ToUpper(t, token) == token;
  }

  lemma DefaultsAreFixed(t: Text)
    requires Sane(t)
    ensures NormalizeToken(t, UNKNOWN) == UNKNOWN && !Blank(t, UNKNOWN_RISK)
  {
    var u := UNKNOWN;
    TrimmedIsFixed(t, u);
    assert forall i :: 0 <= i < |u| ==> 'A' <= u[i] <= 'Z';
    assert ToUpper(t, u) == u;
    var risk := UNKNOWN_RISK;
    assert 'a' <= risk[0] <= 'z' && 'a' <= risk[|risk| - 1] <= 'z';
    TrimmedIsFixed(t, risk);
  }

  lemma NumberedIsOrdered(steps: seq<Step>)
    ensures steps != [] ==> SomeOrdered(Numbered(steps))
    ensures steps == [] ==> Numbered(steps) == []
  {
    if steps != [] {
      assert Numbered(steps)[0].order > 0;
    }
  }

  /** Everything but the objective settles the first time. */
  lemma RestIsFixed(t: Text, p: PlanValue, prompt: string, prompt': string)
    requires Sane(t)
    ensures var once := Normalized(t, p, prompt);
            Normalized(t, once, prompt').(objective := once.objective) == once
  {
    var once := Normalized(t, p, prompt);
    TokenTwice(t, p.actionType);
    DefaultsAreFixed(t);
    NumberedIsOrdered(p.steps);
    assert once.searchQueries != [];
    if p.steps == [] {
      assert once.steps == [];
    }
  }

  /** Normalising again, with any prompt, changes nothing exactly when an objective or a prompt was
      there the first time, or the second prompt is the first. */
  lemma NormalizingTwice(t: Text, p: PlanValue, prompt: string, prompt': string)
    requires Sane(t)
    ensures Normalized(t, Normalized(t, p, prompt), prompt') == Normalized(t, p, prompt) <==>
            !Blank(t, p.objective) || !Blank(t, prompt) || prompt' == prompt
  {
    RestIsFixed(t, p, prompt, prompt');
  }

  /** The steps' queries are those before a step, its own, and those after it. */
  lemma {:induction false} StepQueriesAt(steps: seq<Step>, i: nat)
    requires i < |steps|
    ensures StepQueries(steps) == StepQueries(steps[..i]) + steps[i].searchQueries + StepQueries(steps[i + 1..])
  {
    var init, last := steps[..|steps| - 1], steps[|steps| - 1];
    if i < |init| {
      StepQueriesAt(init, i);
      var rest := steps[i + 1..];
      assert init[..i] == steps[..i] && init[i + 1..] == rest[..|rest| - 1] && rest[|rest| - 1] == last;
    }
  }

  lemma {:induction false} StepQueriesIff(steps: seq<Step>)
    ensures StepQueries(steps) != [] <==> exists i :: 0 <= i < |steps| && steps[i].searchQueries != []
  {
    if steps != [] {
      StepQueriesIff(steps[..|steps| - 1]);
      assert forall i :: 0 <= i < |steps| - 1 ==> steps[..|steps| - 1][i] == steps[i];
    }
  }

  ghost predicate AllSpace(t: Text, s: string) {
    forall k :: 0 <= k < |s| ==> t.isSpace(s[k])
  }

  lemma BlankIff(t: Text, s: string)
    ensures Blank(t, s) <==> AllSpace(t, s)
  {
    TrimIff(t.isSpace, s, TrimSpace(t, s));
    var i, j :| 0 <= i <= j <= |s| && TrimSpace(t, s) == s[i..j] && Cut(t.isSpace, s, i, j);
  }

  /** The action is what is left of the given one without the white space around it, in capitals. */
  lemma TokenIs(t: Text, v: string, i: int, j: int)
    requires 0 <= i <= j <= |v| && Cut(t.isSpace, v, i, j)
    ensures i == j ==> Token(t, v) == "UNKNOWN"
    ensures i < j ==> |Token(t, v)| == j - i && forall k :: 0 <= k < j - i ==> Token(t, v)[k] == t.upper(v[i + k])
  {
    assert TrimmedFrom(t.isSpace, v, v[i..j]);
    TrimIff(t.isSpace, v, v[i..j]);
  }

  /** The single fields: a blank objective becomes the prompt, a blank risk "unknown", a budget below
      one becomes one, and a blank action "UNKNOWN"; an action that is there is trimmed and in
      capitals. */
  lemma NormalizedFields(t: Text, p: PlanValue, prompt: string, i: int, j: int)
    requires 0 <= i <= j <= |p.actionType| && Cut(t.isSpace, p.actionType, i, j)
    ensures var q, v := Normalized(t, p, prompt), p.actionType;
            && q.objective == (if AllSpace(t, p.objective) then prompt else p.objective)
            && q.risk == (if AllSpace(t, p.risk) then "unknown" else p.risk)
            && q.contextBudget == (if p.contextBudget < 1 then 1 else p.contextBudget)
            && (i == j ==> q.actionType == "UNKNOWN")
            && (i < j ==>
                  && |q.actionType| == j - i
                  && forall k :: 0 <= k < j - i ==> q.actionType[k] == t.upper(v[i + k]))
  {
    BlankIff(t, p.objective);
    BlankIff(t, p.risk);
    TokenIs(t, p.actionType, i, j);
  }

  /** A normalised plan is usable.  Its queries are the given ones, else those of the steps in order if
      any step has one, else the prompt; it has an action and a budget; and its steps keep everything
      but their order, which becomes 1..n exactly when no step had a positive one. */
  lemma NormalizedIsUsable(t: Text, p: PlanValue, prompt: string)
    ensures var q := Normalized(t, p, prompt);
            && (p.searchQueries != [] ==> q.searchQueries == p.searchQueries)
            && (forall i :: p.searchQueries == [] && 0 <= i < |p.steps| && p.steps[i].searchQueries != [] ==>
                  && q.searchQueries == StepQueries(p.steps)
                  && StepQueries(p.steps[..i]) + p.steps[i].searchQueries <= q.searchQueries)
            && (p.searchQueries == [] && (forall i :: 0 <= i < |p.steps| ==> p.steps[i].searchQueries == []) ==>
                  q.searchQueries == [prompt])
            && |q.searchQueries| > 0 && q.contextBudget >= 1 && q.actionType != ""
            && |q.steps| == |p.steps|
            && (forall i :: 0 <= i < |p.steps| ==> q.steps[i].(order := 0) == p.steps[i].(order := 0))
            && (SomeOrdered(p.steps) ==> q.steps == p.steps)
            && (!SomeOrdered(p.steps) ==> forall i :: 0 <= i < |q.steps| ==> q.steps[i].order == i + 1)
  {
    StepQueriesIff(p.steps);
    forall i | p.searchQueries == [] && 0 <= i < |p.steps| && p.steps[i].searchQueries != []
      ensures StepQueries(p.steps[..i]) + p.steps[i].searchQueries <= Normalized(t, p, prompt).searchQueries
    {
      StepQueriesAt(p.steps, i);
    }
  }
}
