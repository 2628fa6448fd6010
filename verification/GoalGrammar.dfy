/**
 What `/goal` commands mean (frontend/js/goals.js:3-26), by how they are composed: the command word, an
 action word or none, a budget or none, and the rest. Covers every text, the refused ones included.
*/
module GoalGrammar {
  import opened Text
  import opened MarkdownLines
  import opened MarkdownForms
  import opened GoalCommand

  /** The text spells the word, in any case if `fold`. */
  predicate Spells(s: string, word: string, fold: bool) {
    |s| == |word| && forall i :: 0 <= i < |s| ==> s[i] == word[i] || (fold && LowerChar(s[i]) == word[i])
  }

  /** The word, then white space and `more`, or nothing. */
  ghost predicate Leads(s: string, word: string, fold: bool, more: string) {
    exists first: string, gap: string ::
      && Spells(first, word, fold) && AllSpace(gap) && s == first + gap + more
      && (more != "" ==> gap != "" && !IsSpace(more[0]) && !IsSpace(more[|more| - 1]))
  }

  /** What follows the command word, without white space around it. */
  ghost predicate IsGoal(text: string, rest: string) {
    exists first: string, tail: string ::
      Spells(first, "/goal", true) && text == first + tail && IsTrimmed(tail, rest)
      && (tail != "" ==> IsSpace(tail[0]))
  }

  /** A rest that starts with an action word, nothing, or anything else. */
  ghost predicate ActionPart(rest: string, action: Action, more: string) {
    match action
    case Create => more == rest && rest != "" && NoActionWord(rest)
    case Status => (rest == "" && more == "") || Leads(rest, "status", true, more)
    case Pause => Leads(rest, "pause", true, more)
    case Resume => Leads(rest, "resume", true, more)
    case Clear => Leads(rest, "clear", true, more)
  }

  ghost predicate NoActionWord(rest: string) {
    forall more :: !Leads(rest, "status", true, more) && !Leads(rest, "pause", true, more)
                   && !Leads(rest, "resume", true, more) && !Leads(rest, "clear", true, more)
  }

  predicate AllDigits(s: string) { forall i :: 0 <= i < |s| ==> IsDigit(s[i]) }

  /** `--rounds`, white space, digits, and the rest behind white space. */
  ghost predicate RoundsPart(rest: string, n: nat, more: string) {
    exists gap: string, digits: string, tail: string ::
      && gap != "" && AllSpace(gap) && digits != "" && AllDigits(digits)
      && rest == "--rounds" + gap + digits + tail && (tail != "" ==> IsSpace(tail[0]))
      && n == Value(digits) && IsTrimmed(tail, more)
  }

  datatype Option = NoOption | NoLimit | Limit(n: nat) | BadLimit

  /** The option a rest starts with, and what follows it. */
  ghost predicate OptionPart(rest: string, option: Option, more: string) {
    match option
    case NoLimit => Leads(rest, "--no-limit", false, more)
    case Limit(n) => 1 <= n <= 100 && RoundsPart(rest, n, more)
    case BadLimit =>
      && (exists tail :: Leads(rest, "--rounds", false, tail))
      && forall n: nat, tail :: 1 <= n <= 100 ==> !RoundsPart(rest, n, tail)
    case NoOption =>
      more == rest && forall tail :: !Leads(rest, "--no-limit", false, tail) && !Leads(rest, "--rounds", false, tail)
  }

  function RoundsOf(option: Option): Rounds {
    match option
    case NoLimit => Rounds(0)
    case Limit(n) => Rounds(n)
    case NoOption => Unset
    case BadLimit => Unset
  }

  /** What the parts add up to. */
  function Outcome(action: Action, option: Option, objective: string): Parsed {
    if option.BadLimit? then Failed(BadBudget)
    else if action == Create then
      if objective == "" then Failed(NoObjective) else Command(Create, objective, RoundsOf(option))
    else if objective != "" || (RoundsOf(option) != Unset && action != Resume) then Failed(Unexpected)
    else Command(action, "", RoundsOf(option))
  }

  ghost predicate Means(text: string, parsed: Parsed) {
    if forall rest :: !IsGoal(text, rest) then parsed == NotGoal
    else exists rest: string, action: Action, more: string, option: Option, objective: string ::
      IsGoal(text, rest) && ActionPart(rest, action, more) && OptionPart(more, option, objective)
      && parsed == Outcome(action, option, objective)
  }

  // ---- words -----------------------------------------------------------------------------------

  /** No white space at either end. */
  predicate Bare(s: string) { s != "" ==> !IsSpace(s[0]) && !IsSpace(s[|s| - 1]) }

  /** A text that ends visibly and starts with a word is led by it; the rest is what is behind it. */
  lemma StartLeads(s: string, word: string, fold: bool)
    requires Bare(s) && StartsWithWord(s, word, fold)
    ensures |word| <= |s| && Leads(s, word, fold, After(s, word)) && Bare(After(s, word))
  {
    hide Trim, LowerChar;
    var first, tail, more := s[..|word|], s[|word|..], After(s, word);
    assert s == first + tail && Spells(first, word, fold);
    TailTrims(s, tail, more);
    var gap := tail[..|tail| - |more|];
    assert s == first + gap + more;
  }

  lemma LedStarts(s: string, word: string, fold: bool, more: string)
    requires Leads(s, word, fold, more)
    ensures StartsWithWord(s, word, fold)
  {
    hide Trim, LowerChar;
    var first: string, gap: string :| Spells(first, word, fold) && AllSpace(gap) && s == first + gap + more
      && (more != "" ==> gap != "" && !IsSpace(more[0]) && !IsSpace(more[|more| - 1]));
    assert s == first + (gap + more);
    forall i | 0 <= i < |word| ensures s[i] == first[i] {}
    assert gap != "" ==> s[|word|] == gap[0];
  }

  /** It starts with the word exactly when something is led by it. */
  lemma WordLeads(s: string, word: string, fold: bool)
    requires Bare(s)
    ensures StartsWithWord(s, word, fold) ==>
              |word| <= |s| && Leads(s, word, fold, After(s, word)) && Bare(After(s, word))
    ensures StartsWithWord(s, word, fold) <==> exists more :: Leads(s, word, fold, more)
  {
    hide StartsWithWord, Leads, After, Bare;
    if StartsWithWord(s, word, fold) { StartLeads(s, word, fold); }
    if more :| Leads(s, word, fold, more) { LedStarts(s, word, fold, more); }
  }

  lemma SuffixEnd(tail: string, trail: string)
    requires trail != "" && |trail| <= |tail| && trail == tail[|tail| - |trail|..]
    ensures trail[|trail| - 1] == tail[|tail| - 1]
  {
  }

  lemma LastVisible(s: string, tail: string, trail: string)
    requires Bare(s) && 0 < |tail| <= |s| && tail == s[|s| - |tail|..] && |trail| <= |tail|
    requires trail == tail[|tail| - |trail|..] && AllOf(trail, IsSpace)
    ensures trail == ""
  {
    assert s[|s| - 1] == tail[|tail| - 1];
    if trail != "" { SuffixEnd(tail, trail); }
  }

  /** Trimming the end of a text that ends visibly only takes white space off its front. */
  lemma TailTrims(s: string, tail: string, more: string)
    requires Bare(s) && |tail| <= |s| && tail == s[|s| - |tail|..] && more == Trim(tail)
    requires tail != "" ==> IsSpace(tail[0])
    ensures |more| <= |tail| && AllSpace(tail[..|tail| - |more|]) && tail == tail[..|tail| - |more|] + more
    ensures Bare(more) && (more != "" ==> |tail| > |more|)
  {
    hide Trim, IsSpace;
    TrimIs(tail, more);
    var lead, trail :| AllOf(lead, IsSpace) && AllOf(trail, IsSpace) && tail == lead + more + trail;
    if tail != "" {
      assert trail == tail[|tail| - |trail|..];
      LastVisible(s, tail, trail);
    }
    assert tail == lead + more && tail[..|tail| - |more|] == lead;
    assert lead == "" ==> tail == more;
  }

  // ---- the command word ----------------------------------------------------------------------------

  lemma GoalLeads(text: string)
    ensures StartsWithWord(text, "/goal", true) ==>
              |text| >= 5 && IsGoal(text, After(text, "/goal")) && Bare(After(text, "/goal"))
    ensures StartsWithWord(text, "/goal", true) <==> exists rest :: IsGoal(text, rest)
  {
    hide Trim, LowerChar;
    if StartsWithWord(text, "/goal", true) {
      var first, tail := text[..5], text[5..];
      assert text == first + tail && Spells(first, "/goal", true);
      TrimIs(tail, Trim(tail));
      BareTrim(tail);
      assert IsGoal(text, Trim(tail));
    }
    if rest :| IsGoal(text, rest) {
      var first: string, tail: string :| Spells(first, "/goal", true) && text == first + tail
        && IsTrimmed(tail, rest) && (tail != "" ==> IsSpace(tail[0]));
      forall i | 0 <= i < 5 ensures text[i] == first[i] {}
      assert |text| > 5 ==> text[5] == tail[0];
    }
  }

  // ---- actions ------------------------------------------------------------------------------------

  lemma ActionIs(rest: string)
    requires Bare(rest)
    ensures var action := ActionOf(rest);
            if action != Create then
              && |Word(action)| <= |rest|
              && ActionPart(rest, action, After(rest, Word(action))) && Bare(After(rest, Word(action)))
            else if rest == "" then ActionPart(rest, Status, "")
            else ActionPart(rest, Create, rest)
  {
    hide StartsWithWord, Leads, Trim, After, Bare;
    WordLeads(rest, "status", true);
    WordLeads(rest, "pause", true);
    WordLeads(rest, "resume", true);
    WordLeads(rest, "clear", true);
  }

  // ---- options ----------------------------------------------------------------------------------------

  lemma RoundsComposed(gap: string, digits: string, tail: string)
    requires gap != "" && AllSpace(gap) && digits != "" && AllDigits(digits)
    requires tail != "" ==> IsSpace(tail[0])
    ensures RoundsPart("--rounds" + gap + digits + tail, Value(digits), Trim(tail))
  {
    TrimIs(tail, Trim(tail));
  }

  lemma RoundsAtStart(rest: string)
    requires StartsWithWord(rest, "--rounds", false)
    ensures |rest| >= 8 && rest[..8] == "--rounds"
  {
  }

  lemma BareTrim(s: string)
    ensures Bare(Trim(s))
  {
  }

  /** The pieces the code cuts a budget into. */
  lemma BudgetCut(rest: string)
    requires |rest| >= 8 && ReadBudget(rest).Budget?
    ensures var m := Span(rest[8..], IsSpace);
            var k := Span(rest[8 + m..], IsDigit);
            && m > 0 && k > 0 && AllSpace(rest[8..][..m]) && AllDigits(rest[8 + m..][..k])
            && 8 + m + k <= |rest| && (8 + m + k < |rest| ==> IsSpace(rest[8 + m + k]))
            && ReadBudget(rest) == Budget(Value(rest[8 + m..][..k]), 8 + m + k)
  {
    hide Span, Value;
    SpanStops(rest[8..], IsSpace);
    SpanStops(rest[8 + Span(rest[8..], IsSpace)..], IsDigit);
  }

  lemma BudgetRead(rest: string)
    requires StartsWithWord(rest, "--rounds", false) && |rest| >= 8 && ReadBudget(rest).Budget?
    ensures var b := ReadBudget(rest);
            RoundsPart(rest, b.n, Trim(rest[b.end..])) && Bare(Trim(rest[b.end..]))
  {
    hide Trim, Value, Span, ReadBudget, RoundsPart, Bare, AllSpace;
    RoundsAtStart(rest);
    BudgetCut(rest);
    var m := Span(rest[8..], IsSpace);
    var k := Span(rest[8 + m..], IsDigit);
    var gap, digits, tail := rest[8..][..m], rest[8 + m..][..k], rest[8 + m + k..];
    RoundsComposed(gap, digits, tail);
    BareTrim(tail);
    assert rest == rest[..8] + gap + digits + tail;
  }

  lemma ReadAt(rest: string, m: nat, k: nat)
    requires |rest| >= 8 + m && m == Span(rest[8..], IsSpace) && k == Span(rest[8 + m..], IsDigit)
    requires m > 0 && k > 0 && AllDigits(rest[8 + m..][..k])
    requires 8 + m + k == |rest| || IsSpace(rest[8 + m + k])
    ensures ReadBudget(rest) == Budget(Value(rest[8 + m..][..k]), 8 + m + k)
  {
    hide Span, Value;
  }

  lemma BudgetFound(rest: string, gap: string, digits: string, tail: string)
    requires gap != "" && AllSpace(gap) && digits != "" && AllDigits(digits)
    requires rest == "--rounds" + gap + digits + tail && (tail != "" ==> IsSpace(tail[0]))
    ensures |rest| >= 8 && ReadBudget(rest) == Budget(Value(digits), 8 + |gap| + |digits|)
  {
    hide Value, Span, ReadBudget, IsSpace, IsDigit;
    Pieces("--rounds", gap, digits, tail);
    NotBoth();
    SpanIs(rest[8..], IsSpace, |gap|);
    SpanIs(rest[8 + |gap|..], IsDigit, |digits|);
    ReadAt(rest, |gap|, |digits|);
  }

  lemma NotBoth()
    ensures forall c :: IsDigit(c) ==> !IsSpace(c)
  {
  }

  lemma Pieces(word: string, gap: string, digits: string, tail: string)
    ensures var rest, n := word + gap + digits + tail, |word| + |gap|;
            && rest[|word|..] == gap + digits + tail && rest[n..] == digits + tail && rest[n..][..|digits|] == digits
            && (forall i :: 0 <= i < |gap| ==> rest[|word|..][i] == gap[i])
            && (digits != "" ==> rest[|word|..][|gap|] == digits[0])
            && (tail != "" ==> rest[n..][|digits|] == tail[0] && rest[n + |digits|] == tail[0])
  {
  }

  /** The budget the code reads, if it reads one, is the one the rest is composed with. */
  lemma BudgetIs(rest: string)
    requires StartsWithWord(rest, "--rounds", false) && |rest| >= 8
    ensures var b := ReadBudget(rest);
            && (b.Budget? ==> RoundsPart(rest, b.n, Trim(rest[b.end..])) && Bare(Trim(rest[b.end..])))
            && forall n: nat, more :: RoundsPart(rest, n, more) ==> b.Budget? && b.n == n
  {
    hide Trim, Value, ReadBudget, StartsWithWord, Bare;
    var b := ReadBudget(rest);
    if b.Budget? {
      hide RoundsPart;
      BudgetRead(rest);
    }
    forall n: nat, more | RoundsPart(rest, n, more) ensures b.Budget? && b.n == n {
      var gap: string, digits: string, tail: string :| gap != "" && AllSpace(gap) && digits != ""
        && AllDigits(digits)
        && rest == "--rounds" + gap + digits + tail && (tail != "" ==> IsSpace(tail[0]))
        && n == Value(digits) && IsTrimmed(tail, more);
      BudgetFound(rest, gap, digits, tail);
    }
  }

  /** Which option the code takes, and what it goes on with. */
  lemma OptionIs(action: Action, rest: string)
    requires Bare(rest)
    ensures exists option: Option, objective: string ::
              OptionPart(rest, option, objective) && ParseOptions(action, rest) == Outcome(action, option, objective)
  {
    hide StartsWithWord, Leads, Trim, Bare, RoundsPart, ReadBudget, After;
    WordLeads(rest, "--no-limit", false);
    WordLeads(rest, "--rounds", false);
    if StartsWithWord(rest, "--no-limit", false) {
      assert OptionPart(rest, NoLimit, After(rest, "--no-limit"));
    } else if StartsWithWord(rest, "--rounds", false) {
      RoundsAtStart(rest);
      BudgetIs(rest);
      var b := ReadBudget(rest);
      if b.NoBudget? || b.n < 1 || b.n > 100 {
        assert OptionPart(rest, BadLimit, "");
      } else {
        assert OptionPart(rest, Limit(b.n), Trim(rest[b.end..]));
      }
    } else {
      assert OptionPart(rest, NoOption, rest);
    }
  }

  /** Every text means what it parses to. */
  lemma ParseMeans(text: string)
    ensures Means(text, Parse(text))
  {
    hide StartsWithWord, IsGoal, ActionPart, OptionPart, ParseOptions, Bare, After, ActionOf;
    GoalLeads(text);
    if StartsWithWord(text, "/goal", true) {
      var rest := After(text, "/goal");
      ActionIs(rest);
      var action := ActionOf(rest);
      if action != Create {
        OptionIs(action, After(rest, Word(action)));
      } else {
        OptionIs(if rest == "" then Status else Create, rest);
      }
    }
  }

  /** The bare command asks for the status. */
  lemma BareGoal(text: string, tail: string)
    requires text == "/goal" + tail && AllSpace(tail)
    ensures Parse(text) == Command(Status, "", Unset)
  {
    hide Trim;
    BlankForm(tail);
    assert text[5..] == tail && text[..5] == "/goal";
    assert tail != "" ==> text[5] == tail[0];
    NothingBehind();
  }

  lemma NothingBehind()
    ensures ActionOf("") == Create && ParseOptions(Status, "") == Command(Status, "", Unset)
  {
  }

  /** An action that takes nothing refuses whatever is behind it. */
  lemma TakesNothing(action: Action, objective: string)
    requires action == Status || action == Pause || action == Clear
    requires Trimmed(objective) && objective[0] != '-'
    ensures Parse("/goal " + (Word(action) + " " + objective)) == Failed(Unexpected)
  {
    hide Parse, Trim;
    var word := Word(action);
    assert Trimmed(word);
    JoinTrimmed(word, objective);
    assert word + " " + objective == word + (" " + objective);
    ActionAtStart(action, " " + objective);
    ParseRest(word + " " + objective);
    WordThenSpace(word, objective, true);
  }

  /** A further digit counts ten times what is before it. */
  lemma TenTimes(s: string, c: char)
    requires AllDigits(s) && IsDigit(c)
    ensures Value([]) == 0 && Value(s + [c]) == 10 * Value(s) + (c as int - '0' as int)
  {
    assert (s + [c])[..|s|] == s;
  }
}
