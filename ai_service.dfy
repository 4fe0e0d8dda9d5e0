/**
 * The older breakdown service: a fixed two-message prompt, a reply parser that
 * tries a JSON array first and falls back to the reply's lines, and a loop that
 * writes one task per subtask name.
 */
module AiService {
  import opened Wrappers
  import opened Seqs
  import opened Text
  import opened Completion
  import opened Store
  import JsonArray
  import TaskService

  // ---------------------------------------------------------------------------
  // The prompt

  const SystemPrompt: string :=
    "You are a professional task manager assistant. Your job is to break down a main task into 3-7 specific, " +
    "actionable subtasks. Each subtask should be clear and start with an action verb. Format your response as a " +
    "JSON array of strings with ONLY the subtasks. Do not include any explanations, just return the JSON array."

  const PromptOpen: string := "Break down this task into subtasks: \""

  /** `createPrompt`: the system instructions, then the task name in double quotes. */
  function CreatePrompt(taskName: string): (r: seq<Message>)
    ensures |r| == 2 && r[0] == Message(System, SystemPrompt) && r[1].role == Role.User
    ensures |r[1].text| == |PromptOpen| + |taskName| + 1
    ensures r[1].text[..|PromptOpen|] == PromptOpen && r[1].text[|r[1].text| - 1] == '"'
    ensures r[1].text[|PromptOpen|..|r[1].text| - 1] == taskName
  {
    [Message(System, SystemPrompt), Message(Role.User, PromptOpen + taskName + "\"")]
  }

  /** Different task names give different prompts, so the prompt determines the name. */
  lemma CreatePromptInjective(a: string, b: string)
    requires CreatePrompt(a) == CreatePrompt(b)
    ensures a == b
  {
    var ta, tb := CreatePrompt(a)[1].text, CreatePrompt(b)[1].text;
    assert ta == tb;
    assert a == ta[|PromptOpen|..|ta| - 1];
  }

  // ---------------------------------------------------------------------------
  // Strategy one: the first bracketed substring

  /**
   * `[i..j]` is where `/\[[\s\S]*?\]/` matches: `i` is the first `[` and `j` the
   * first `]` after it.
   */
  predicate IsLazyMatch(text: string, i: int, j: int) {
    && 0 <= i < j < |text| && text[i] == '[' && text[j] == ']'
    && '[' !in text[..i] && ']' !in text[i + 1..j]
  }

  predicate HasBracketPair(text: string) {
    exists i, j :: 0 <= i < j < |text| && text[i] == '[' && text[j] == ']'
  }

  /** The bounds of the match, if the text has a `[` with a later `]`. */
  function BracketSpan(text: string): (r: Option<(nat, nat)>)
    ensures r.Some? ==> IsLazyMatch(text, r.value.0, r.value.1)
    ensures r.None? <==> !HasBracketPair(text)
  {
    if '[' !in text then None
    else
      var i := FirstIndex(text, '[');
      var rest := text[i + 1..];
      if ']' !in rest then
        None
      else
        var j := i + 1 + FirstIndex(rest, ']');
        assert text[i + 1..j] == rest[..j - i - 1];
        Some((i, j))
  }

  /** There is only one place the lazy pattern matches. */
  lemma LazyMatchUnique(text: string, i: int, j: int, i': int, j': int)
    requires IsLazyMatch(text, i, j) && IsLazyMatch(text, i', j')
    ensures i == i' && j == j'
  {
  }

  /** The text of the match, `jsonMatch[0]`. */
  function JsonMatch(text: string): (r: Option<string>)
    ensures r.None? <==> !HasBracketPair(text)
    ensures r.Some? ==> exists i, j :: IsLazyMatch(text, i, j) && r.value == text[i..j + 1]
  {
    match BracketSpan(text)
    case None => None
    case Some((i, j)) => Some(text[i..j + 1])
  }

  // ---------------------------------------------------------------------------
  // Strategies two and three: the reply's lines

  /** The leading list marker class `[-*\d.)\s]`. */
  predicate IsListMarker(c: char) {
    c == '-' || c == '*' || IsAsciiDigit(c) || c == '.' || c == ')' || IsSpace(c)
  }

  /** A line without its leading marker run, trimmed. */
  function Unmark(line: string): string {
    Trim(StripLeading(line, IsListMarker))
  }

  function UnmarkAll(lines: seq<string>): (r: seq<string>)
    ensures |r| == |lines| && forall i :: 0 <= i < |lines| ==> r[i] == Unmark(lines[i])
  {
    seq(|lines|, i requires 0 <= i < |lines| => Unmark(lines[i]))
  }

  predicate NotBlank(line: string) { Trim(line) != "" }

  predicate NotBlankNoColon(line: string) { Trim(line) != "" && !Contains(line, ":") }

  predicate NonEmpty(line: string) { line != "" }

  /** The second strategy on the reply's lines. */
  function CleanItems(lines: seq<string>): (r: seq<string>)
    ensures forall x :: x in r ==> x != "" && exists line :: line in lines && x == Unmark(line)
  {
    var kept := Filter(lines, NotBlank);
    var r := Filter(UnmarkAll(kept), NonEmpty);
    assert forall x :: x in r ==> x in UnmarkAll(kept);
    r
  }

  /** The second strategy, for replies without a bracket pair. */
  function LineItems(text: string): seq<string> {
    CleanItems(Split(text, '\n'))
  }

  /** The third strategy on the reply's lines; it has no final empty filter. */
  function ColonFreeItems(lines: seq<string>): (r: seq<string>)
    ensures |r| <= |lines|
    ensures forall x :: x in r ==> exists line :: line in lines && !Contains(line, ":") && x == Unmark(line)
  {
    var kept := Filter(lines, NotBlankNoColon);
    assert forall k :: 0 <= k < |kept| ==> NotBlankNoColon(kept[k]);
    UnmarkAll(kept)
  }

  /** The third strategy, when the bracketed text is not a JSON array of strings. */
  function CatchItems(text: string): seq<string> {
    ColonFreeItems(Split(text, '\n'))
  }

  // ---------------------------------------------------------------------------
  // The cascade

  const ParseFailed: string := "Failed to parse AI response"

  /** The items the three strategies settle on, before the empty-list check. */
  function Candidates(text: string): seq<string> {
    match JsonMatch(text)
    case None => LineItems(text)
    case Some(m) =>
      match JsonArray.Parse(m)
      case Some(xs) => xs
      case None => CatchItems(text)
  }

  /**
   * `parseSubtasksFromResponse` on the assistant message's text (`None` when the
   * response carries no message or no text).
   */
  function ParseSubtasksFromResponse(text: Option<string>): (r: Result<seq<string>, string>)
    ensures r.Err? ==> r.error == ParseFailed
    ensures r.Err? <==> text.None? || text.value == "" || Candidates(text.value) == []
    ensures r.Ok? ==> r.value == Candidates(text.value)
  {
    if text.None? || text.value == "" then Err(ParseFailed)
    else
      var items := Candidates(text.value);
      if items == [] then Err(ParseFailed) else Ok(items)
  }

  /** A successful parse never yields an empty list. */
  lemma ParseNonEmpty(text: Option<string>)
    requires ParseSubtasksFromResponse(text).Ok?
    ensures ParseSubtasksFromResponse(text).value != []
  {
  }

  /** Writing a character for a JSON string only brings in a `]` when the character is one. */
  lemma EscapeCharNoBracket(c: char)
    requires c != ']'
    ensures ']' !in JsonArray.EscapeChar(c)
  {
    if JsonArray.EscapeLetter(c).None? && c < ' ' {
      var hex := JsonArray.HexDigits;
      assert hex[c as int / 16] != ']' && hex[c as int % 16] != ']';
    }
  }

  lemma {:induction false} EscapeNoBracket(x: string)
    requires ']' !in x
    ensures ']' !in JsonArray.Escape(x)
  {
    if x != [] {
      EscapeNoBracket(x[1..]);
      EscapeCharNoBracket(x[0]);
      assert JsonArray.Escape(x) == JsonArray.EscapeChar(x[0]) + JsonArray.Escape(x[1..]);
    }
  }

  lemma {:induction false} RenderItemsNoBracket(xs: seq<string>)
    requires forall k :: 0 <= k < |xs| ==> ']' !in xs[k]
    ensures ']' !in JsonArray.RenderItems(xs)
  {
    if xs != [] {
      EscapeNoBracket(xs[0]);
      RenderItemsNoBracket(xs[1..]);
    }
  }

  /**
   * A reply that embeds a JSON array of strings after text with no `[` gives
   * back exactly those strings, as long as none of them holds a `]` and there is
   * at least one.
   */
  lemma ReplyWithArray(before: string, xs: seq<string>, after: string)
    requires '[' !in before
    requires forall k :: 0 <= k < |xs| ==> ']' !in xs[k]
    ensures JsonMatch(before + JsonArray.Render(xs) + after) == Some(JsonArray.Render(xs))
    ensures ParseSubtasksFromResponse(Some(before + JsonArray.Render(xs) + after))
         == if xs == [] then Err(ParseFailed) else Ok(xs)
  {
    var x := JsonArray.RenderItems(xs);
    var text := before + JsonArray.Render(xs) + after;
    assert text == before + "[" + x + "]" + after;
    RenderItemsNoBracket(xs);
    MatchAfter(before, x, after);
    JsonArray.ParseRender(xs);
    CandidatesArray(text, JsonArray.Render(xs), xs);
  }

  /** When the bracketed text is a JSON array of strings, those strings are the candidates. */
  lemma CandidatesArray(text: string, m: string, xs: seq<string>)
    requires JsonMatch(text) == Some(m) && JsonArray.Parse(m) == Some(xs)
    ensures Candidates(text) == xs
  {
  }

  /** Without a `[` the first strategy never applies. */
  lemma CandidatesWithoutBracket(text: string)
    requires '[' !in text
    ensures Candidates(text) == LineItems(text)
  {
    assert !HasBracketPair(text);
  }

  /** A line that neither starts with a marker character nor ends in white space. */
  predicate IsCleanItem(x: string) {
    x != "" && !IsListMarker(x[0]) && !IsSpace(x[|x| - 1])
  }

  /** A clean item loses nothing to the marker stripping and the trim. */
  lemma UnmarkClean(x: string)
    requires IsCleanItem(x)
    ensures Unmark(x) == x && NotBlank(x)
  {
    assert StripLeading(x, IsListMarker) == x;
    assert StripLeading(x, IsSpace) == x;
    assert StripTrailing(x, IsSpace) == x;
  }

  /** Lines that are already clean items pass through the second strategy unchanged. */
  lemma CleanItemsOfCleanLines(xs: seq<string>)
    requires forall k :: 0 <= k < |xs| ==> IsCleanItem(xs[k])
    ensures CleanItems(xs) == xs
  {
    forall k | 0 <= k < |xs| ensures Unmark(xs[k]) == xs[k] && NotBlank(xs[k]) {
      UnmarkClean(xs[k]);
    }
    FilterAll(xs, NotBlank);
    assert UnmarkAll(xs) == xs;
    FilterAll(xs, NonEmpty);
  }

  /** A reply of plain lines that are already clean items, none holding `[`, gives back those lines. */
  lemma ReplyOfLines(xs: seq<string>)
    requires xs != []
    requires forall k :: 0 <= k < |xs| ==> IsCleanItem(xs[k]) && '\n' !in xs[k] && '[' !in xs[k]
    ensures ParseSubtasksFromResponse(Some(Join(xs, '\n'))) == Ok(xs)
  {
    var text := Join(xs, '\n');
    JoinNoBracket(xs);
    CandidatesWithoutBracket(text);
    SplitJoin(xs, '\n');
    CleanItemsOfCleanLines(xs);
  }

  lemma {:induction false} JoinNoBracket(xs: seq<string>)
    requires forall k :: 0 <= k < |xs| ==> '[' !in xs[k]
    ensures '[' !in Join(xs, '\n')
  {
    if |xs| > 1 {
      JoinNoBracket(xs[1..]);
    }
  }

  lemma JoinHead(xs: seq<string>)
    requires xs != [] && xs[0] != ""
    ensures Join(xs, '\n') != "" && Join(xs, '\n')[0] == xs[0][0]
  {
  }

  /** After text without `[`, a bracketed text without `]` inside is where the pattern matches. */
  lemma MatchAfter(before: string, x: string, rest: string)
    requires '[' !in before && ']' !in x
    ensures JsonMatch(before + "[" + x + "]" + rest) == Some("[" + x + "]")
  {
    var text := before + "[" + x + "]" + rest;
    var i, j := |before|, |before| + |x| + 1;
    assert text[i] == '[' && text[j] == ']';
    assert text[..i] == before;
    assert text[i + 1..j] == x;
    assert IsLazyMatch(text, i, j);
    var span := BracketSpan(text);
    LazyMatchUnique(text, i, j, span.value.0, span.value.1);
    assert text[i..j + 1] == "[" + x + "]";
  }

  /** Bracketed text whose first character cannot open a string is not an array of strings. */
  lemma UnquotedArrayFails(x: string)
    requires x != [] && x[0] != '"' && !JsonArray.IsJsonSpace(x[0]) && x[0] != ']'
    ensures JsonArray.Parse("[" + x + "]") == None
  {
    assert "[" + x + "]" == "[" + (x + "]");
    JsonArray.ParseOpen(x + "]");
  }

  lemma TrimKeeps(x: string)
    requires x != [] && !IsSpace(x[0]) && !IsSpace(x[|x| - 1])
    ensures Trim(x) == x
  {
    assert StripLeading(x, IsSpace) == x;
    assert StripTrailing(x, IsSpace) == x;
  }

  /** A line with text at both ends and no colon survives the third strategy's filter. */
  lemma KeptByCatch(x: string)
    requires x != [] && !IsSpace(x[0]) && !IsSpace(x[|x| - 1]) && ':' !in x
    ensures NotBlankNoColon(x)
  {
    TrimKeeps(x);
    ContainsChar(x, ':');
  }

  /** A line with a colon is dropped by the third strategy's filter. */
  lemma DroppedByCatch(x: string)
    requires ':' in x
    ensures !NotBlankNoColon(x)
  {
    ContainsChar(x, ':');
  }

  lemma UnmarkDash()
    ensures Unmark("-") == ""
  {
    assert StripLeading("-", IsListMarker) == "";
  }

  /** The third strategy on a line it drops and a line holding only a marker. */
  lemma DashItems(first: string)
    requires ':' in first
    ensures ColonFreeItems([first, "-"]) == [""]
  {
    DroppedByCatch(first);
    KeptByCatch("-");
    UnmarkDash();
    DropThenKeep(first, "-");
  }

  /** The third strategy on a line its filter drops, then a line it keeps. */
  lemma DropThenKeep(first: string, second: string)
    requires !NotBlankNoColon(first) && NotBlankNoColon(second)
    ensures ColonFreeItems([first, second]) == [Unmark(second)]
  {
    var lines := [first, second];
    assert lines[1..] == [second];
    FilterSingleton(second, NotBlankNoColon);
    assert Filter(lines, NotBlankNoColon) == [second];
  }

  /** When the bracketed text is not an array of strings, the third strategy decides. */
  lemma CandidatesCatch(text: string)
    requires JsonMatch(text).Some? && JsonArray.Parse(JsonMatch(text).value).None?
    ensures Candidates(text) == CatchItems(text)
  {
  }

  lemma TwoLines(first: string, second: string)
    requires '\n' !in first && '\n' !in second
    ensures Split(first + "\n" + second, '\n') == [first, second]
  {
    assert first + "\n" + second == first + ['\n'] + second;
    SplitCons(first, second, '\n');
    SplitNoSep(second, '\n');
  }

  /**
   * The third strategy keeps a line that held only a marker as an empty item:
   * a bracketed text with a colon and no quote, which is no JSON text at all,
   * on a line the colon filter drops, then a line `-`, parses as one empty
   * subtask name.
   */
  lemma CatchKeepsEmptyItem(x: string)
    requires x != [] && !JsonArray.IsJsonSpace(x[0])
    requires '"' !in x && ':' in x && ']' !in x && '\n' !in x
    ensures ParseSubtasksFromResponse(Some("[" + x + "]" + "\n" + "-")) == Ok([""])
  {
    var first := "[" + x + "]";
    var text := first + "\n" + "-";
    BracketFirstLineCaught(x, "\n" + "-");
    assert text == "[" + x + "]" + ("\n" + "-");
    TwoLines(first, "-");
    assert ':' in first;
    DashItems(first);
  }

  /** A first bracketed text that is not an array of strings sends the reply to the third strategy. */
  lemma BracketFirstLineCaught(x: string, rest: string)
    requires x != [] && !JsonArray.IsJsonSpace(x[0]) && x[0] != '"' && ']' !in x
    ensures Candidates("[" + x + "]" + rest) == CatchItems("[" + x + "]" + rest)
  {
    MatchAfter("", x, rest);
    assert "" + "[" + x + "]" + rest == "[" + x + "]" + rest;
    UnquotedArrayFails(x);
    CandidatesCatch("[" + x + "]" + rest);
  }

  // ---------------------------------------------------------------------------
  // Breaking a task down

  /** What the private generator reports: the assistant text of a response, or a failed call. */
  datatype AiOutcome = Answered(text: Option<string>) | CallFailed

  /** Why `breakdownTask` refused; every cause surfaces as a bad request. */
  datatype Cause = EmptyName | GenerationFailed | NothingGenerated | CreateFailed(error: StoreError)

  datatype AiError = BadRequest(cause: Cause)

  /** `generateSubtasks`: a failed call and a failed parse both become one generation failure. */
  function Generate(outcome: AiOutcome): (r: Option<seq<string>>)
    ensures r.Some? ==> r.value != []
    ensures outcome.CallFailed? ==> r.None?
  {
    match outcome
    case CallFailed => None
    case Answered(text) =>
      match ParseSubtasksFromResponse(text)
      case Ok(names) => Some(names)
      case Err(_) => None
  }

  /** The dto the loop sends for one name. */
  function SubtaskDto(name: string, originalPriority: Option<Priority>, now: Timestamp): TaskService.TaskDto {
    TaskService.TaskDto(name, Some(false), Some(now), Some(originalPriority.GetOr(Medium)))
  }

  /** The rows the loop writes for `names`, from identifier `firstId` on. */
  function SubtaskRows(userId: Id, names: seq<string>, originalPriority: Option<Priority>, now: Timestamp, firstId: Id): (r: seq<Task>)
    ensures |r| == |names|
  {
    seq(|names|, k requires 0 <= k < |names| =>
      TaskService.NewTask(firstId + k, userId, SubtaskDto(names[k], originalPriority, now), now))
  }

  /** Each written row carries its name in order, the priority given or medium, and is not completed. */
  lemma SubtaskRowsFields(userId: Id, names: seq<string>, originalPriority: Option<Priority>, now: Timestamp, firstId: Id)
    ensures forall k :: 0 <= k < |names| ==>
      var t := SubtaskRows(userId, names, originalPriority, now, firstId)[k];
      && t.name == names[k] && t.userId == userId && !t.isCompleted && t.createdAt == now
      && t.priority == Some(if originalPriority.Some? then originalPriority.value else Medium)
  {
  }

  lemma SubtaskRowsStep(userId: Id, names: seq<string>, originalPriority: Option<Priority>, now: Timestamp, firstId: Id, k: nat)
    requires k < |names|
    ensures SubtaskRows(userId, names[..k + 1], originalPriority, now, firstId)
         == SubtaskRows(userId, names[..k], originalPriority, now, firstId)
            + [TaskService.NewTask(firstId + k, userId, SubtaskDto(names[k], originalPriority, now), now)]
  {
    var pre := names[..k + 1];
    assert pre[..|pre| - 1] == names[..k];
    assert pre[|pre| - 1] == names[k];
  }

  /**
   * The loop of `breakdownTask`: one `create` per name, in order. The writes are
   * separate; the first refused one ends the loop and keeps the earlier ones.
   */
  method CreateAll(db: Database, userId: Id, names: seq<string>, originalPriority: Option<Priority>, now: Timestamp)
    returns (r: Result<seq<Task>, StoreError>)
    requires db.Valid() && names != []
    modifies db`tasks, db`nextId
    ensures db.Valid()
    ensures old(db.HasUser(userId)) ==>
      && r == Ok(SubtaskRows(userId, names, originalPriority, now, old(db.nextId)))
      && db.tasks == old(db.tasks) + r.value
      && db.nextId == old(db.nextId) + |names|
    ensures !old(db.HasUser(userId)) ==> r == Err(NotFound) && unchanged(db)
  {
    var created: seq<Task> := [];
    var k := 0;
    ghost var known := db.HasUser(userId);
    assert db.tasks == old(db.tasks) + created;
    while k < |names|
      invariant 0 <= k <= |names|
      invariant db.Valid() && known == db.HasUser(userId)
      invariant k > 0 ==> known
      invariant created == SubtaskRows(userId, names[..k], originalPriority, now, old(db.nextId))
      invariant db.tasks == old(db.tasks) + created && db.nextId == old(db.nextId) + k
    {
      var c := TaskService.Create(db, userId, SubtaskDto(names[k], originalPriority, now), now);
      if c.Err? {
        assert !known && created == [];
        return Err(c.error);
      }
      SubtaskRowsStep(userId, names, originalPriority, now, old(db.nextId), k);
      assert db.tasks == old(db.tasks) + (created + [c.value]);
      created := created + [c.value];
      k := k + 1;
    }
    assert names[..k] == names;
    r := Ok(created);
  }

  /**
   * What `breakdownTask` decides before writing anything: a blank name is refused
   * before any request, a failed generation and an empty list are refused after it.
   */
  function Plan(taskName: string, outcome: AiOutcome): (r: Result<seq<string>, Cause>)
    ensures r == Err(EmptyName) <==> Trim(taskName) == ""
    ensures r == Err(GenerationFailed) <==> Trim(taskName) != "" && Generate(outcome).None?
    ensures r.Ok? <==> Trim(taskName) != "" && Generate(outcome).Some?
    ensures r.Ok? ==> r.value == Generate(outcome).value && r.value != []
  {
    if Trim(taskName) == "" then Err(EmptyName)
    else match Generate(outcome)
      case None => Err(GenerationFailed)
      case Some(names) => if names == [] then Err(NothingGenerated) else Ok(names)
  }

  /**
   * `breakdownTask`: rejects a blank name before asking for anything, then creates
   * one task per generated name, in order. The creations are separate writes, so a
   * failed one returns an error without undoing those before it.
   */
  method BreakdownTask(db: Database, userId: Id, taskName: string, originalPriority: Option<Priority>,
                       outcome: AiOutcome, now: Timestamp)
    returns (r: Result<seq<Task>, AiError>, prompt: Option<seq<Message>>)
    requires db.Valid()
    modifies db`tasks, db`nextId
    ensures db.Valid()
    ensures prompt == if Trim(taskName) == "" then None else Some(CreatePrompt(taskName))
    ensures Plan(taskName, outcome).Err? ==> r == Err(BadRequest(Plan(taskName, outcome).error)) && unchanged(db)
    ensures Plan(taskName, outcome).Ok? ==>
      var names := Plan(taskName, outcome).value;
      if old(db.HasUser(userId)) then
        && r == Ok(SubtaskRows(userId, names, originalPriority, now, old(db.nextId)))
        && db.tasks == old(db.tasks) + r.value
        && db.nextId == old(db.nextId) + |names|
      else r == Err(BadRequest(CreateFailed(NotFound))) && unchanged(db)
  {
    var plan := Plan(taskName, outcome);
    prompt := if Trim(taskName) == "" then None else Some(CreatePrompt(taskName));
    if plan.Err? {
      return Err(BadRequest(plan.error)), prompt;
    }
    var created := CreateAll(db, userId, plan.value, originalPriority, now);
    if created.Ok? {
      r := Ok(created.value);
    } else {
      r := Err(BadRequest(CreateFailed(created.error)));
    }
  }
}
