/**
 The `/goal` command (frontend/js/goals.js:3-26) and the command strings the goal panel prints
 (frontend/js/goals.js:211-256). Parsing a printed command gives back what was meant.
*/
module GoalCommand {
  import opened Text
  import opened MarkdownLines

  datatype Action = Status | Pause | Resume | Clear | Create

  /** `max_rounds`: absent, or a number where 0 means no limit. */
  datatype Rounds = Unset | Rounds(n: nat)

  datatype Problem = BadBudget | NoObjective | Unexpected

  datatype Parsed =
    | NotGoal
    | Failed(problem: Problem)
    | Command(action: Action, objective: string, maxRounds: Rounds)

  // ---- words --------------------------------------------------------------------------

  function LowerChar(c: char): char { if 'A' <= c <= 'Z' then (c as int + 32) as char else c }

  /** The pattern `^word(?:\s|$)`; `fold` ignores case. */
  predicate StartsWithWord(s: string, word: string, fold: bool) {
    && |word| <= |s|
    && (forall i :: 0 <= i < |word| ==> s[i] == word[i] || (fold && LowerChar(s[i]) == word[i]))
    && (|s| == |word| || IsSpace(s[|word|]))
  }

  /** Cuts the word off, trimming what follows. */
  function After(s: string, word: string): string
    requires |word| <= |s|
  {
    Trim(s[|word|..])
  }

  function Word(a: Action): string {
    match a
    case Status => "status"
    case Pause => "pause"
    case Resume => "resume"
    case Clear => "clear"
    case Create => ""
  }

  /** The explicit action at the start of the rest, `Create` when there is none. */
  function ActionOf(rest: string): Action {
    if StartsWithWord(rest, "status", true) then Status
    else if StartsWithWord(rest, "pause", true) then Pause
    else if StartsWithWord(rest, "resume", true) then Resume
    else if StartsWithWord(rest, "clear", true) then Clear
    else Create
  }

  // ---- decimal numbers ---------------------------------------------------------------

  function Digit(d: nat): char
    requires d < 10
  {
    ('0' as int + d) as char
  }

  /** `${n}` */
  function Decimal(n: nat): (s: string)
    ensures |s| > 0 && forall i :: 0 <= i < |s| ==> IsDigit(s[i])
  {
    if n < 10 then [Digit(n)] else Decimal(n / 10) + [Digit(n % 10)]
  }

  /** `Number(s)` on a string of digits. */
  function Value(s: string): nat
    requires forall i :: 0 <= i < |s| ==> IsDigit(s[i])
  {
    if |s| == 0 then 0
    else
      assert IsDigit(s[|s| - 1]);
      10 * Value(s[..|s| - 1]) + (s[|s| - 1] as int - '0' as int)
  }

  lemma {:induction false} ValueOfDecimal(n: nat)
    ensures Value(Decimal(n)) == n
  {
    if n >= 10 {
      ValueOfDecimal(n / 10);
      assert Decimal(n)[..|Decimal(n)| - 1] == Decimal(n / 10);
    } else {
      assert [Digit(n)][..0] == "";
    }
  }

  // ---- the parser as a function --------------------------------------------------------

  /** What `--rounds\s+(\d+)(?:\s|$)` finds: the number and where it ends. */
  datatype Budget = NoBudget | Budget(n: nat, end: nat)

  function ReadBudget(rest: string): (b: Budget)
    requires |rest| >= 8
    ensures b.Budget? ==> b.end <= |rest|
  {
    var from := 8 + Span(rest[8..], IsSpace);
    var len := Span(rest[from..], IsDigit);
    SpanStops(rest[from..], IsDigit);
    if from == 8 || len == 0 || !(from + len == |rest| || IsSpace(rest[from + len])) then NoBudget
    else Budget(Value(rest[from..][..len]), from + len)
  }

  /** The part after the options. */
  function Conclude(action: Action, rest: string, maxRounds: Rounds): Parsed {
    if action == Create && rest == "" then Failed(NoObjective)
    else if action != Create && (rest != "" || (maxRounds != Unset && action != Resume)) then Failed(Unexpected)
    else Command(action, if action == Create then rest else "", maxRounds)
  }

  function ParseOptions(action: Action, rest: string): Parsed {
    if StartsWithWord(rest, "--no-limit", false) then Conclude(action, After(rest, "--no-limit"), Rounds(0))
    else if StartsWithWord(rest, "--rounds", false) then
      var b := ReadBudget(rest);
      if b.NoBudget? || b.n < 1 || b.n > 100 then Failed(BadBudget)
      else Conclude(action, Trim(rest[b.end..]), Rounds(b.n))
    else Conclude(action, rest, Unset)
  }

  function Parse(text: string): Parsed {
    if !StartsWithWord(text, "/goal", true) then NotGoal
    else
      var rest := After(text, "/goal");
      var action := ActionOf(rest);
      if action != Create then ParseOptions(action, After(rest, Word(action)))
      else ParseOptions(if rest == "" then Status else Create, rest)
  }

  /** `OSA.parseGoalCommand`, reassigning `rest` and `maxRounds` as it goes. */
  method ParseGoalCommand(text: string) returns (parsed: Parsed)
    ensures parsed == Parse(text)
  {
    if !StartsWithWord(text, "/goal", true) { return NotGoal; }
    var rest := Trim(text[5..]);
    var maxRounds := Unset;
    var action := ActionOf(rest);
    if action != Create {
      rest := Trim(rest[|Word(action)|..]);
    } else if rest == "" {
      action := Status;
    }
    if StartsWithWord(rest, "--no-limit", false) {
      maxRounds := Rounds(0);
      rest := Trim(rest[|"--no-limit"|..]);
    } else if StartsWithWord(rest, "--rounds", false) {
      var budget := ReadBudget(rest);
      if budget.NoBudget? || budget.n < 1 || budget.n > 100 { return Failed(BadBudget); }
      maxRounds := Rounds(budget.n);
      rest := Trim(rest[budget.end..]);
    }
    if action == Create && rest == "" { return Failed(NoObjective); }
    if action != Create && (rest != "" || (maxRounds != Unset && action != Resume)) {
      return Failed(Unexpected);
    }
    parsed := Command(action, if action == Create then rest else "", maxRounds);
  }

  // ---- the printers ----------------------------------------------------------------------

  /** The budget as the panel writes it; nothing when there is no rounds field. */
  function PrintBudget(rounds: Rounds): string {
    match rounds
    case Unset => ""
    case Rounds(n) => if n == 0 then " --no-limit" else " --rounds " + Decimal(n)
  }

  /** `submitGoalEditor`. */
  function PrintCreate(rounds: Rounds, draft: string): string
    requires rounds.Rounds?
  {
    "/goal" + PrintBudget(rounds) + " " + Trim(draft)
  }

  /** `runGoalPanelAction`, which adds a budget only to `resume`. */
  function PrintAction(action: Action, rounds: Rounds): string
    requires action != Create
  {
    "/goal " + Word(action) + if action == Resume then PrintBudget(rounds) else ""
  }

  // ---- trimming --------------------------------------------------------------------------

  predicate Trimmed(s: string) { |s| > 0 && !IsSpace(s[0]) && !IsSpace(s[|s| - 1]) }

  lemma TrimTrimmed(s: string)
    requires Trimmed(s)
    ensures Trim(s) == s && Trim(" " + s) == s
  {
    assert (" " + s)[1..] == s;
    assert TrimLeftBy(" " + s, IsSpace) == TrimLeftBy(s, IsSpace);
  }

  lemma TrimIsTrimmed(s: string)
    requires Trim(s) != ""
    ensures Trimmed(Trim(s))
  {
  }

  lemma JoinTrimmed(a: string, b: string)
    requires Trimmed(a) && Trimmed(b)
    ensures Trimmed(a + b) && Trimmed(a + " " + b)
  {
    assert (a + b)[|a + b| - 1] == b[|b| - 1] && (a + " " + b)[|a + " " + b| - 1] == b[|b| - 1];
  }

  // ---- words that are, and are not, at the start ---------------------------------------------

  lemma WordThenSpace(word: string, rest: string, fold: bool)
    ensures StartsWithWord(word + " " + rest, word, fold)
    ensures Trimmed(rest) ==> After(word + " " + rest, word) == rest
  {
    var s := word + " " + rest;
    assert s[|word|] == ' ' && s[|word|..] == " " + rest;
    if Trimmed(rest) { TrimTrimmed(rest); }
  }

  lemma WordAlone(word: string, fold: bool)
    ensures StartsWithWord(word, word, fold) && After(word, word) == ""
  {
    assert word[|word|..] == "";
  }

  lemma DashIsNoAction(rest: string)
    requires |rest| > 0 && rest[0] == '-'
    ensures ActionOf(rest) == Create
  {
  }

  /** `/goal` followed by a trimmed rest. */
  lemma ParseRest(rest: string)
    requires Trimmed(rest)
    ensures Parse("/goal " + rest)
         == var action := ActionOf(rest);
            ParseOptions(action, if action != Create then After(rest, Word(action)) else rest)
  {
    WordThenSpace("/goal", rest, true);
    assert "/goal" + " " + rest == "/goal " + rest;
  }

  // ---- round trips ------------------------------------------------------------------------------

  lemma SpanOfDigits(digits: string, rest: string)
    requires forall i :: 0 <= i < |digits| ==> IsDigit(digits[i])
    requires rest == "" || IsSpace(rest[0])
    ensures Span(digits + rest, IsDigit) == |digits|
  {
    var s := digits + rest;
    assert rest != "" ==> s[|digits|] == rest[0];
    SpanIs(s, IsDigit, |digits|);
  }

  lemma OptionParts(digits: string, tail: string)
    ensures var rest := "--rounds " + digits + tail;
            && rest[8..] == " " + (digits + tail) && rest[9..] == digits + tail
            && rest[9 + |digits|..] == tail && rest[9..][..|digits|] == digits
            && (tail != "" ==> rest[9 + |digits|] == tail[0])
  {
  }

  /** The budget reader on any number written out, with or without something behind it. */
  lemma {:induction false} ReadDigits(digits: string, tail: string)
    requires |digits| > 0 && forall i :: 0 <= i < |digits| ==> IsDigit(digits[i])
    requires tail == "" || IsSpace(tail[0])
    ensures var rest := "--rounds " + digits + tail;
            ReadBudget(rest) == Budget(Value(digits), 9 + |digits|) && rest[9 + |digits|..] == tail
  {
    var rest := "--rounds " + digits + tail;
    OptionParts(digits, tail);
    OneSpace(digits + tail);
    SpanOfDigits(digits, tail);
  }

  lemma OneSpace(s: string)
    requires |s| > 0 && !IsSpace(s[0])
    ensures Span(" " + s, IsSpace) == 1
  {
    SpanIs(" " + s, IsSpace, 1);
  }

  lemma {:induction false} RoundsOption(action: Action, n: nat, tail: string)
    requires 1 <= n <= 100 && (tail == "" || IsSpace(tail[0]))
    ensures ParseOptions(action, "--rounds " + Decimal(n) + tail) == Conclude(action, Trim(tail), Rounds(n))
  {
    var rest := "--rounds " + Decimal(n) + tail;
    assert rest == "--rounds" + " " + (Decimal(n) + tail);
    WordThenSpace("--rounds", Decimal(n) + tail, false);
    assert rest[2] == 'r';
    assert !StartsWithWord(rest, "--no-limit", false);
    ReadDigits(Decimal(n), tail);
    ValueOfDecimal(n);
  }

  lemma {:induction false} NoLimitOption(action: Action, tail: string)
    requires tail == "" || IsSpace(tail[0])
    ensures ParseOptions(action, "--no-limit" + tail) == Conclude(action, Trim(tail), Rounds(0))
  {
    var rest := "--no-limit" + tail;
    assert tail != "" ==> rest[10] == tail[0];
    assert rest[10..] == tail;
    assert StartsWithWord(rest, "--no-limit", false);
  }

  lemma TrimTail(objective: string)
    requires objective == "" || Trimmed(objective)
    ensures Trim(if objective == "" then "" else " " + objective) == objective
  {
    if objective != "" { TrimTrimmed(objective); }
  }

  /** A printed budget without the space in front of it. */
  lemma BudgetText(n: nat)
    ensures PrintBudget(Rounds(n)) == " " + PrintBudget(Rounds(n))[1..]
    ensures PrintBudget(Rounds(n))[1..] == if n == 0 then "--no-limit" else "--rounds " + Decimal(n)
  {
    hide Decimal;
    if n > 0 {
      assert " --rounds " == " " + "--rounds ";
      assert PrintBudget(Rounds(n)) == " " + ("--rounds " + Decimal(n));
    } else {
      assert PrintBudget(Rounds(n)) == " " + "--no-limit";
    }
  }

  /** A printed budget in front of a trimmed objective, or alone. */
  lemma {:induction false} OptionsPrinted(action: Action, n: nat, objective: string)
    requires n <= 100 && (objective == "" || Trimmed(objective))
    ensures var tail := if objective == "" then "" else " " + objective;
            ParseOptions(action, PrintBudget(Rounds(n))[1..] + tail) == Conclude(action, objective, Rounds(n))
  {
    var tail := if objective == "" then "" else " " + objective;
    hide ParseOptions, PrintBudget, Conclude, Decimal;
    TrimTail(objective);
    BudgetText(n);
    if n == 0 {
      NoLimitOption(action, tail);
    } else {
      RoundsOption(action, n, tail);
    }
  }

  lemma BudgetTrimmed(n: nat)
    ensures |PrintBudget(Rounds(n))| > 0 && Trimmed(PrintBudget(Rounds(n))[1..])
    ensures PrintBudget(Rounds(n)) == " " + PrintBudget(Rounds(n))[1..]
    ensures PrintBudget(Rounds(n))[1] == '-'
  {
    if n > 0 {
      var p := PrintBudget(Rounds(n));
      assert p[|p| - 1] == Decimal(n)[|Decimal(n)| - 1];
    }
  }

  /**
   Creating a goal: whatever the objective, as long as it is not blank, the parser returns it trimmed
   with the budget it was printed with.
  */
  lemma CreateRoundTrip(n: nat, draft: string)
    requires n <= 100 && Trim(draft) != ""
    ensures Parse(PrintCreate(Rounds(n), draft)) == Command(Create, Trim(draft), Rounds(n))
  {
    hide Parse, ParseOptions, TrimBy;
    var objective, budget := Trim(draft), PrintBudget(Rounds(n))[1..];
    TrimIsTrimmed(draft);
    BudgetTrimmed(n);
    JoinTrimmed(budget, objective);
    var rest := budget + " " + objective;
    assert PrintCreate(Rounds(n), draft) == "/goal " + rest;
    assert rest[0] == '-';
    DashIsNoAction(rest);
    ParseRest(rest);
    OptionsPrinted(Create, n, objective);
    assert rest == budget + (" " + objective);
  }

  lemma ActionAtStart(action: Action, tail: string)
    requires action != Create && (tail == "" || IsSpace(tail[0]))
    ensures ActionOf(Word(action) + tail) == action
  {
    var rest := Word(action) + tail;
    assert StartsWithWord(rest, Word(action), true) by {
      if tail != "" { assert rest[|Word(action)|] == tail[0]; }
    }
    assert rest[0] == Word(action)[0];
  }

  /** An action alone. */
  lemma {:induction false} BareAction(action: Action)
    requires action != Create
    ensures Parse("/goal " + Word(action)) == Command(action, "", Unset)
  {
    var word := Word(action);
    assert Trimmed(word) && word + "" == word;
    ActionAtStart(action, "");
    ParseRest(word);
    WordAlone(word, true);
  }

  lemma ResumeText(word: string, budget: string)
    requires word == "resume"
    ensures "/goal resume" + (" " + budget) == "/goal " + (word + " " + budget)
  {
    assert "/goal resume" == "/goal " + word;
  }

  lemma ResumeOption(word: string, budget: string, parsed: Parsed)
    requires word == Word(Resume) && Trimmed(budget) && ParseOptions(Resume, budget) == parsed
    ensures Parse("/goal " + (word + " " + budget)) == parsed
  {
    hide Parse, ParseOptions, TrimBy, ActionOf, StartsWithWord;
    assert Trimmed(word);
    JoinTrimmed(word, budget);
    assert word + " " + budget == word + (" " + budget);
    ActionAtStart(Resume, " " + budget);
    ParseRest(word + " " + budget);
    WordThenSpace(word, budget, true);
  }

  lemma {:induction false} ResumeWithBudget(n: nat)
    requires n <= 100
    ensures Parse("/goal resume" + PrintBudget(Rounds(n))) == Command(Resume, "", Rounds(n))
  {
    hide Parse, ParseOptions, PrintBudget, Trimmed;
    BudgetTrimmed(n);
    var budget := PrintBudget(Rounds(n))[1..];
    OptionsPrinted(Resume, n, "");
    assert budget + "" == budget;
    ResumeOption(Word(Resume), budget, Command(Resume, "", Rounds(n)));
    ResumeText(Word(Resume), budget);
  }

  lemma PrintResume(rounds: Rounds)
    ensures PrintAction(Resume, rounds) == "/goal resume" + PrintBudget(rounds)
  {
  }

  lemma PrintBare(action: Action, rounds: Rounds)
    requires action != Create && (action == Resume ==> rounds == Unset)
    ensures PrintAction(action, rounds) == "/goal " + Word(action)
  {
    assert "/goal " + Word(action) + "" == "/goal " + Word(action);
  }

  /** The panel's actions come back as what they were, and `resume` with its budget. */
  lemma {:induction false} ActionRoundTrip(action: Action, rounds: Rounds)
    requires action != Create && (rounds == Unset || rounds.n <= 100)
    ensures Parse(PrintAction(action, rounds))
         == Command(action, "", if action == Resume then rounds else Unset)
  {
    if action == Resume && rounds.Rounds? {
      ResumeWithBudget(rounds.n);
      PrintResume(rounds);
    } else {
      BareAction(action);
      PrintBare(action, rounds);
    }
  }

  lemma {:induction false} PlainOptions(action: Action, rest: string)
    requires rest != ""
    ensures ParseOptions(action, rest) == Command(Create, rest, Unset)
            <==> && action == Create
                 && !StartsWithWord(rest, "--no-limit", false) && !StartsWithWord(rest, "--rounds", false)
  {
  }

  lemma ActionNeverCreates(action: Action, rest: string)
    requires action != Create
    ensures ParseOptions(action, rest).Command? ==> ParseOptions(action, rest).action == action
  {
  }

  /**
   Typing the objective without a budget is not as safe: it comes back as written exactly when it does
   not start with an action or an option.
  */
  lemma {:induction false} PlainObjective(objective: string)
    requires Trimmed(objective)
    ensures Parse("/goal " + objective) == Command(Create, objective, Unset)
            <==> ActionOf(objective) == Create && !StartsWithWord(objective, "--no-limit", false)
                 && !StartsWithWord(objective, "--rounds", false)
  {
    ParseRest(objective);
    var action := ActionOf(objective);
    if action == Create {
      PlainOptions(Create, objective);
    } else {
      ActionNeverCreates(action, After(objective, Word(action)));
    }
  }
}
