/**
 * The priority-aware subtask generator: one guarded call to the completion
 * endpoint, then a line parser that turns the reply into (name, priority)
 * pairs and removes repeated names the way a JavaScript `Map` does.
 */
module YandexGpt {
  import opened Wrappers
  import opened Seqs
  import opened Text
  import opened Completion
  import opened Store

  /** One parsed subtask candidate. */
  datatype Subtask = Subtask(name: string, priority: Priority)

  /** The two credentials read from the configuration; an absent or empty one is missing. */
  datatype Config = Config(catalogId: Option<string>, iamToken: Option<string>)

  predicate Configured(c: Config) {
    c.catalogId.Some? && c.catalogId.value != "" && c.iamToken.Some? && c.iamToken.value != ""
  }

  /** What the HTTP client reports for the one request: a reply (whose text may be absent), an error status, no response, or any other failure. */
  datatype CallOutcome = Replied(text: Option<string>) | HttpError(status: int) | NoResponse | OtherFailure

  datatype ServiceError = ServiceUnavailable(message: string) | Unauthorized(message: string)

  const ConfigMissing := "YandexGPT configuration missing"
  const AuthFailed := "Authentication failed with YandexGPT API. Check your IAM token."
  const Unavailable := "YandexGPT service unavailable"
  const GenerationFailed := "Failed to generate subtasks"

  /** The completion request: the model address and the two messages. */
  datatype Request = Request(modelUri: string, messages: seq<Message>)

  const SystemText: string :=
    "Ты помощник, который разбивает задачи на логические подзадачи с приоритетами. " +
    "Предоставь 2-5 четких, конкретных подзадач для выполнения основной задачи. " +
    "Каждая подзадача должна быть в формате: \"НАЗВАНИЕ_ПОДЗАДАЧИ | ПРИОРИТЕТ\" " +
    "где ПРИОРИТЕТ может быть: high, medium, или low. " +
    "Определи приоритет на основе важности и срочности подзадачи для выполнения основной задачи. " +
    "Каждая подзадача должна начинаться с новой строки и быть краткой (до 100 символов). " +
    "Не включай в ответ нумерацию или дополнительный текст. " +
    "Пример формата: \"Изучить требования | high\""

  const UserPrefix: string := "Разбей эту задачу на подзадачи с приоритетами: "

  /**
   * The request posted for `taskName`: the model address names the catalog,
   * the system message is the fixed instruction, and the user message is the
   * fixed prefix followed by the task name.
   */
  function BuildRequest(catalogId: string, taskName: string): (r: Request)
    ensures r.modelUri == "gpt://" + catalogId + "/yandexgpt"
    ensures |r.messages| == 2 && r.messages[0].role == System && r.messages[1].role == Role.User
    ensures r.messages[0].text == SystemText
    ensures |r.messages[1].text| == |UserPrefix| + |taskName|
    ensures r.messages[1].text[..|UserPrefix|] == UserPrefix
    ensures r.messages[1].text[|UserPrefix|..] == taskName
  {
    Request("gpt://" + catalogId + "/yandexgpt",
            [Message(System, SystemText), Message(Role.User, UserPrefix + taskName)])
  }

  /** Different task names, or different catalogs, give different requests. */
  lemma BuildRequestInjective(c1: string, n1: string, c2: string, n2: string)
    requires BuildRequest(c1, n1) == BuildRequest(c2, n2)
    ensures c1 == c2 && n1 == n2
  {
    var u1, u2 := BuildRequest(c1, n1).modelUri, BuildRequest(c2, n2).modelUri;
    assert |c1| == |c2|;
    assert c1 == u1[6..6 + |c1|] == u2[6..6 + |c2|] == c2;
  }

  // ---------------------------------------------------------------------------
  // Line cleaning

  /** The characters of the leading list marker class `[-•\d.\s]`. */
  predicate IsMarker(c: char) {
    c == '-' || c == '•' || IsAsciiDigit(c) || c == '.' || IsSpace(c)
  }

  /** A reply line without its leading marker run and surrounding white space. */
  function CleanLine(line: string): string {
    Trim(StripLeading(line, IsMarker))
  }

  /**
   * Cleaning a line removes its leading run of marker characters, which ends
   * at a non-marker, and then only white space at the end of the rest.
   */
  lemma CleanLineStrips(line: string) returns (k: nat)
    ensures k <= |line| && (forall i :: 0 <= i < k ==> IsMarker(line[i]))
    ensures k < |line| ==> !IsMarker(line[k])
    ensures CleanLine(line) == StripTrailing(line[k..], IsSpace)
  {
    var a := StripLeading(line, IsMarker);
    k := |line| - |a|;
    assert a == line[k..];
    StripLeadingSubclass(line, IsMarker, IsSpace);
    assert CleanLine(line) == StripTrailing(StripLeading(a, IsSpace), IsSpace);
  }

  /** A cleaned line neither starts with a marker nor ends in white space. */
  lemma CleanLineEnds(line: string)
    ensures var r := CleanLine(line); r != [] ==> !IsMarker(r[0]) && !IsSpace(r[|r| - 1])
  {
    var a := StripLeading(line, IsMarker);
    StripLeadingSubclass(line, IsMarker, IsSpace);
    StripTrailingFirst(a, IsSpace);
    assert CleanLine(line) == StripTrailing(a, IsSpace);
  }

  // ---------------------------------------------------------------------------
  // Priority keywords

  const HighWords: seq<string> := ["high", "важн", "критич"]
  const LowWords: seq<string> := ["low", "низк", "мало"]

  /** True when `text` includes one of `words`. */
  predicate HasAny(text: string, words: seq<string>) {
    words != [] && (Contains(text, words[0]) || HasAny(text, words[1..]))
  }

  /** The priority a `|`-separated priority field names, tested on its lower-cased text. */
  function PriorityOf(field: string): Priority {
    var t := Lower(field);
    if Contains(t, "high") || Contains(t, "важн") || Contains(t, "критич") then High
    else if Contains(t, "low") || Contains(t, "низк") || Contains(t, "мало") then Low
    else Medium
  }

  /** The keyword policy as a table: the first row with a keyword the text includes decides. */
  const PriorityTable: seq<(seq<string>, Priority)> := [(HighWords, High), (LowWords, Low)]

  function FirstMatch(table: seq<(seq<string>, Priority)>, text: string): Priority {
    if table == [] then Medium
    else if HasAny(text, table[0].0) then table[0].1
    else FirstMatch(table[1..], text)
  }

  /** The keyword test agrees with the table, in which high words are tried before low words. */
  lemma HasAnyOfThree(t: string, a: string, b: string, c: string)
    ensures HasAny(t, [a, b, c]) <==> Contains(t, a) || Contains(t, b) || Contains(t, c)
  {
    assert [a, b, c][1..] == [b, c] && [b, c][1..] == [c] && [c][1..] == [];
    assert HasAny(t, [c]) == Contains(t, c);
    assert HasAny(t, [b, c]) == (Contains(t, b) || HasAny(t, [c]));
    assert HasAny(t, [a, b, c]) == (Contains(t, a) || HasAny(t, [b, c]));
  }

  lemma PriorityOfIsTable(field: string)
    ensures PriorityOf(field) == FirstMatch(PriorityTable, Lower(field))
  {
    var t := Lower(field);
    HasAnyOfThree(t, "high", "важн", "критич");
    HasAnyOfThree(t, "low", "низк", "мало");
    assert PriorityTable[1..] == [(LowWords, Low)] && [(LowWords, Low)][1..] == [];
    assert FirstMatch([(LowWords, Low)], t) == if HasAny(t, LowWords) then Low else Medium;
    assert FirstMatch(PriorityTable, t) ==
      if HasAny(t, HighWords) then High else FirstMatch([(LowWords, Low)], t);
  }

  /** High wins whenever a high word occurs, low words needing the absence of every high word. */
  lemma PriorityOfCases(field: string)
    ensures PriorityOf(field) == High <==> HasAny(Lower(field), HighWords)
    ensures PriorityOf(field) == Low <==> !HasAny(Lower(field), HighWords) && HasAny(Lower(field), LowWords)
    ensures PriorityOf(field) == Medium <==> !HasAny(Lower(field), HighWords) && !HasAny(Lower(field), LowWords)
  {
    var t := Lower(field);
    HasAnyOfThree(t, "high", "важн", "критич");
    HasAnyOfThree(t, "low", "низк", "мало");
  }

  // ---------------------------------------------------------------------------
  // Line parsing

  /** A cleaned line: `name | priority [| ...]` when it has a `|`, otherwise a name of medium priority. */
  function ParseLine(line: string): Subtask {
    var parts := Split(line, '|');
    if |parts| >= 2 then Subtask(Trim(parts[0]), PriorityOf(Trim(parts[1])))
    else Subtask(line, Medium)
  }

  /** With a `|`, the name is the trimmed text before the first `|`. */
  lemma ParseLineName(line: string)
    requires '|' in line
    ensures ParseLine(line).name == Trim(line[..FirstIndex(line, '|')])
  {
    SplitAtFirst(line, '|');
  }

  /** Only the second field decides the priority: anything after a second `|` is ignored. */
  lemma ParseLineIgnoresLaterFields(name: string, field: string, rest: string)
    requires '|' !in name && '|' !in field
    ensures ParseLine(name + "|" + field + "|" + rest) == ParseLine(name + "|" + field)
    ensures ParseLine(name + "|" + field) == Subtask(Trim(name), PriorityOf(Trim(field)))
  {
    SplitCons(name, field + "|" + rest, '|');
    SplitCons(field, rest, '|');
    assert name + "|" + field + "|" + rest == name + "|" + (field + "|" + rest);
    SplitCons(name, field, '|');
    SplitNoSep(field, '|');
  }

  /** A line with no `|` is a medium-priority subtask named by the whole line. */
  lemma ParseLineNoBar(line: string)
    requires '|' !in line
    ensures ParseLine(line) == Subtask(line, Medium)
  {
    SplitNoSep(line, '|');
  }

  predicate NonEmpty(line: string) { line != "" }

  predicate Named(s: Subtask) { s.name != "" }

  function CleanAll(lines: seq<string>): (r: seq<string>)
    ensures |r| == |lines| && forall i :: 0 <= i < |lines| ==> r[i] == CleanLine(lines[i])
  {
    seq(|lines|, i requires 0 <= i < |lines| => CleanLine(lines[i]))
  }

  function ParseAll(lines: seq<string>): (r: seq<Subtask>)
    ensures |r| == |lines| && forall i :: 0 <= i < |lines| ==> r[i] == ParseLine(lines[i])
  {
    seq(|lines|, i requires 0 <= i < |lines| => ParseLine(lines[i]))
  }

  /** The candidates a reply text yields before repeated names are removed. */
  function ParseReply(text: string): (r: seq<Subtask>)
    ensures forall s :: s in r ==> s.name != ""
  {
    var cleaned := Filter(CleanAll(Split(text, '\n')), NonEmpty);
    Filter(ParseAll(cleaned), Named)
  }

  lemma NoNewline(name: string, field: string)
    requires '\n' !in name && '\n' !in field
    ensures '\n' !in name + "|" + field
  {
    assert name + "|" + field == name + ['|'] + field;
  }

  /** A reply of one clean, non-empty line is parsed as that line alone. */
  lemma ParseReplySingle(line: string)
    requires '\n' !in line && line != "" && CleanLine(line) == line
    ensures ParseReply(line) == Filter([ParseLine(line)], Named)
  {
    SplitNoSep(line, '\n');
    assert CleanAll([line]) == [line];
    FilterSingleton(line, NonEmpty);
    assert ParseAll([line]) == [ParseLine(line)];
  }

  /** A reply of one `name | priority` line yields exactly that pair. */
  lemma ParseReplyOneLine(name: string, field: string)
    requires '|' !in name && '|' !in field && '\n' !in name && '\n' !in field
    requires CleanLine(name + "|" + field) == name + "|" + field
    requires Trim(name) != ""
    ensures ParseReply(name + "|" + field) == [Subtask(Trim(name), PriorityOf(Trim(field)))]
  {
    var line := name + "|" + field;
    NoNewline(name, field);
    ParseLineIgnoresLaterFields(name, field, "");
    ParseReplyNamedLine(line);
  }

  /** A reply of one clean line whose parsed name is not empty yields that line's subtask. */
  lemma ParseReplyNamedLine(line: string)
    requires '\n' !in line && line != "" && CleanLine(line) == line
    requires ParseLine(line).name != ""
    ensures ParseReply(line) == [ParseLine(line)]
  {
    ParseReplySingle(line);
    FilterSingleton(ParseLine(line), Named);
  }

  // ---------------------------------------------------------------------------
  // Removing repeated names

  function Names(xs: seq<Subtask>): (r: seq<string>)
    ensures |r| == |xs| && forall i :: 0 <= i < |xs| ==> r[i] == xs[i].name
  {
    seq(|xs|, i requires 0 <= i < |xs| => xs[i].name)
  }

  /** A JavaScript `Map` from names: its keys in insertion order and its entries. */
  datatype NameMap = NameMap(keys: seq<string>, entries: map<string, Subtask>)

  /** `map.set(s.name, s)`: a new key goes to the end, an existing key keeps its place and takes the new value. */
  function Insert(m: NameMap, s: Subtask): NameMap {
    if s.name in m.entries then NameMap(m.keys, m.entries[s.name := s])
    else NameMap(m.keys + [s.name], m.entries[s.name := s])
  }

  /** The keys of `m` are the names of `xs`, each once. */
  ghost predicate KeysOf(xs: seq<Subtask>, m: NameMap) {
    && |m.keys| <= |xs|
    && Distinct(m.keys)
    && (forall k :: k in m.keys <==> k in m.entries)
    && (forall k :: k in m.entries <==> k in Names(xs))
  }

  /** Every key holds the last subtask of `xs` with that name. */
  ghost predicate LastValues(xs: seq<Subtask>, m: NameMap) {
    forall k :: k in m.entries ==> k in Names(xs) && m.entries[k] == xs[LastIndex(Names(xs), k)]
  }

  /** The keys stand in the order in which their names first appear in `xs`. */
  ghost predicate FirstOrder(xs: seq<Subtask>, m: NameMap) {
    forall i, j :: 0 <= i < j < |m.keys| ==>
      m.keys[i] in Names(xs) && m.keys[j] in Names(xs) &&
      FirstIndex(Names(xs), m.keys[i]) < FirstIndex(Names(xs), m.keys[j])
  }

  /** What the `Map` built from `xs` holds. */
  ghost predicate Describes(xs: seq<Subtask>, m: NameMap) {
    KeysOf(xs, m) && LastValues(xs, m) && FirstOrder(xs, m)
  }

  /** The names of a list are the names of all but its last element, then the last one's. */
  lemma NamesLast(xs: seq<Subtask>)
    requires xs != []
    ensures Names(xs) == Names(xs[..|xs| - 1]) + [xs[|xs| - 1].name]
  {
  }

  lemma InsertKeys(xs: seq<Subtask>, m: NameMap)
    requires xs != [] && KeysOf(xs[..|xs| - 1], m)
    ensures KeysOf(xs, Insert(m, xs[|xs| - 1]))
  {
    NamesLast(xs);
  }

  lemma InsertValues(xs: seq<Subtask>, m: NameMap)
    requires xs != [] && LastValues(xs[..|xs| - 1], m)
    ensures LastValues(xs, Insert(m, xs[|xs| - 1]))
  {
    var front, x := xs[..|xs| - 1], xs[|xs| - 1];
    var m' := Insert(m, x);
    NamesLast(xs);
    forall k | k in m'.entries ensures k in Names(xs) && m'.entries[k] == xs[LastIndex(Names(xs), k)] {
      if k != x.name {
        assert LastIndex(Names(xs), k) == LastIndex(Names(front), k);
      }
    }
  }

  /** Appending a subtask moves no name's first appearance. */
  lemma FirstIndexKept(xs: seq<Subtask>, m: NameMap)
    requires xs != [] && KeysOf(xs[..|xs| - 1], m)
    ensures forall i :: 0 <= i < |m.keys| ==>
      m.keys[i] in Names(xs[..|xs| - 1]) && m.keys[i] in Names(xs) &&
      FirstIndex(Names(xs), m.keys[i]) == FirstIndex(Names(xs[..|xs| - 1]), m.keys[i])
  {
    var n := Names(xs[..|xs| - 1]);
    NamesLast(xs);
    forall i | 0 <= i < |m.keys|
      ensures m.keys[i] in n && m.keys[i] in Names(xs) && FirstIndex(Names(xs), m.keys[i]) == FirstIndex(n, m.keys[i])
    {
      assert m.keys[i] in m.entries;
      FirstIndexPrefix(n, [xs[|xs| - 1].name], m.keys[i]);
    }
  }

  lemma InsertOrder(xs: seq<Subtask>, m: NameMap)
    requires xs != [] && KeysOf(xs[..|xs| - 1], m) && FirstOrder(xs[..|xs| - 1], m)
    ensures FirstOrder(xs, Insert(m, xs[|xs| - 1]))
  {
    FirstIndexKept(xs, m);
    if xs[|xs| - 1].name in m.entries {
      InsertOrderKnown(xs, m);
    } else {
      InsertOrderNew(xs, m);
    }
  }

  /** A name already in the map keeps every key where it was. */
  lemma InsertOrderKnown(xs: seq<Subtask>, m: NameMap)
    requires xs != [] && xs[|xs| - 1].name in m.entries && FirstOrder(xs[..|xs| - 1], m)
    requires forall i :: 0 <= i < |m.keys| ==>
      m.keys[i] in Names(xs[..|xs| - 1]) && m.keys[i] in Names(xs) &&
      FirstIndex(Names(xs), m.keys[i]) == FirstIndex(Names(xs[..|xs| - 1]), m.keys[i])
    ensures FirstOrder(xs, Insert(m, xs[|xs| - 1]))
  {
    assert Insert(m, xs[|xs| - 1]).keys == m.keys;
  }

  /** A new name goes last, and it first appears after every name before it. */
  lemma InsertOrderNew(xs: seq<Subtask>, m: NameMap)
    requires xs != [] && KeysOf(xs[..|xs| - 1], m) && FirstOrder(xs[..|xs| - 1], m)
    requires xs[|xs| - 1].name !in m.entries
    requires forall i :: 0 <= i < |m.keys| ==>
      m.keys[i] in Names(xs[..|xs| - 1]) && m.keys[i] in Names(xs) &&
      FirstIndex(Names(xs), m.keys[i]) == FirstIndex(Names(xs[..|xs| - 1]), m.keys[i])
    ensures FirstOrder(xs, Insert(m, xs[|xs| - 1]))
  {
    var x := xs[|xs| - 1];
    var n := Names(xs[..|xs| - 1]);
    NamesLast(xs);
    assert x.name !in n;
    assert FirstIndex(Names(xs), x.name) == |n|;
    var ks := m.keys + [x.name];
    assert Insert(m, x).keys == ks;
    forall i, j | 0 <= i < j < |ks|
      ensures ks[i] in Names(xs) && ks[j] in Names(xs) && FirstIndex(Names(xs), ks[i]) < FirstIndex(Names(xs), ks[j])
    {
      assert ks[i] == m.keys[i];
      if j == |m.keys| {
        assert ks[j] == x.name;
      } else {
        assert ks[j] == m.keys[j];
      }
    }
  }

  /** `new Map(xs.map(s => [s.name, s]))`. */
  function Build(xs: seq<Subtask>): (m: NameMap)
    ensures Describes(xs, m)
  {
    if xs == [] then NameMap([], map[])
    else
      var m := Build(xs[..|xs| - 1]);
      InsertKeys(xs, m);
      InsertValues(xs, m);
      InsertOrder(xs, m);
      Insert(m, xs[|xs| - 1])
  }

  /** Every entry of a store built from `xs` is filed under its own name. */
  lemma EntryNames(xs: seq<Subtask>, m: NameMap, k: string)
    requires LastValues(xs, m) && k in m.entries
    ensures m.entries[k].name == k
  {
    var i := LastIndex(Names(xs), k);
    assert Names(xs)[i] == xs[i].name;
  }

  /** `Array.from(map.values())`: the entries in key order. */
  function Dedup(xs: seq<Subtask>): (r: seq<Subtask>)
    ensures |r| <= |xs|
    ensures Names(r) == Build(xs).keys
  {
    var m := Build(xs);
    var r := seq(|m.keys|, i requires 0 <= i < |m.keys| => m.entries[m.keys[i]]);
    forall i | 0 <= i < |r| ensures r[i].name == m.keys[i] {
      EntryNames(xs, m, m.keys[i]);
    }
    r
  }

  /** The output has one subtask per distinct name, and no name the input lacks. */
  lemma DedupNames(xs: seq<Subtask>)
    ensures Distinct(Names(Dedup(xs)))
    ensures forall k :: k in Names(Dedup(xs)) <==> k in Names(xs)
  {
  }

  /** The subtask kept for a name is its last occurrence. */
  lemma DedupValues(xs: seq<Subtask>)
    ensures forall i :: 0 <= i < |Dedup(xs)| ==>
      Dedup(xs)[i].name in Names(xs) && Dedup(xs)[i] == xs[LastIndex(Names(xs), Dedup(xs)[i].name)]
  {
    var m := Build(xs);
    var r := Dedup(xs);
    forall i | 0 <= i < |r| ensures r[i].name in Names(xs) && r[i] == xs[LastIndex(Names(xs), r[i].name)] {
      assert r[i] == m.entries[m.keys[i]];
      assert r[i].name == Names(r)[i] == m.keys[i];
    }
  }

  /** The names stand in the order of their first appearances. */
  lemma DedupOrder(xs: seq<Subtask>)
    ensures forall i, j :: 0 <= i < j < |Dedup(xs)| ==>
      Dedup(xs)[i].name in Names(xs) && Dedup(xs)[j].name in Names(xs) &&
      FirstIndex(Names(xs), Dedup(xs)[i].name) < FirstIndex(Names(xs), Dedup(xs)[j].name)
  {
    var r := Dedup(xs);
    assert forall i :: 0 <= i < |r| ==> r[i].name == Names(r)[i];
  }

  /** A list whose names are already distinct keeps all its names. */
  lemma {:induction false} BuildDistinct(xs: seq<Subtask>)
    requires Distinct(Names(xs))
    ensures Build(xs).keys == Names(xs)
  {
    if xs != [] {
      var n := |xs| - 1;
      NamesLast(xs);
      BuildDistinct(xs[..n]);
      assert xs[n].name !in Names(xs[..n]) by {
        assert Names(xs)[n] == xs[n].name;
      }
    }
  }

  /** In a list without repeats, each element is the last occurrence of its own value. */
  lemma DistinctLastIndex<T>(s: seq<T>, i: nat)
    requires Distinct(s) && i < |s|
    ensures LastIndex(s, s[i]) == i
  {
  }

  /** Removing repeats twice is removing them once. */
  lemma DedupIdempotent(xs: seq<Subtask>)
    ensures Dedup(Dedup(xs)) == Dedup(xs)
  {
    var r := Dedup(xs);
    DedupNames(xs);
    BuildDistinct(r);
    var rr := Dedup(r);
    assert Names(rr) == Names(r);
    DedupValues(r);
    forall i | 0 <= i < |r| ensures rr[i] == r[i] {
      assert rr[i].name == Names(rr)[i] == r[i].name;
      DistinctLastIndex(Names(r), i);
    }
  }

  /** Every candidate of the reply: distinct names, none empty. */
  function Subtasks(text: string): (r: seq<Subtask>)
    ensures Distinct(Names(r))
    ensures forall i :: 0 <= i < |r| ==> r[i].name != ""
    ensures |r| <= |ParseReply(text)|
  {
    var xs := ParseReply(text);
    DedupNames(xs);
    DedupValues(xs);
    Dedup(xs)
  }

  /** A single subtask has nothing to be merged with. */
  lemma DedupSingle(x: Subtask)
    ensures Dedup([x]) == [x]
  {
    assert Names([x]) == [x.name];
    BuildDistinct([x]);
    DedupValues([x]);
  }

  /** A reply of one `name | priority` line yields that one subtask. */
  lemma SubtasksOneLine(name: string, field: string)
    requires '|' !in name && '|' !in field && '\n' !in name && '\n' !in field
    requires CleanLine(name + "|" + field) == name + "|" + field
    requires Trim(name) != ""
    ensures Subtasks(name + "|" + field) == [Subtask(Trim(name), PriorityOf(Trim(field)))]
  {
    ParseReplyOneLine(name, field);
    DedupSingle(Subtask(Trim(name), PriorityOf(Trim(field))));
  }

  // ---------------------------------------------------------------------------
  // The guarded call

  /** The request `generateSubtasks` sends, if it gets that far. */
  function Sent(config: Config, taskName: string): Option<Request> {
    if Configured(config) && Trim(taskName) != "" then Some(BuildRequest(config.catalogId.value, taskName))
    else None
  }

  /** What `generateSubtasks` settles on, as one value, for callers to state their own contracts with. */
  function Answer(config: Config, taskName: string, outcome: CallOutcome): Result<seq<Subtask>, ServiceError> {
    if !Configured(config) then Err(ServiceUnavailable(ConfigMissing))
    else if Trim(taskName) == "" then Ok([])
    else match outcome
      case Replied(text) => Ok(if text.Some? && text.value != "" then Subtasks(text.value) else [])
      case HttpError(status) =>
        Err(if status == 401 || status == 403 then Unauthorized(AuthFailed) else ServiceUnavailable(GenerationFailed))
      case NoResponse => Err(ServiceUnavailable(Unavailable))
      case OtherFailure => Err(ServiceUnavailable(GenerationFailed))
  }

  /**
   * `generateSubtasks(taskName)`: the configuration check comes first, then the
   * blank-name check; only then is the one request sent (`sent`), and its outcome
   * is classified.
   */
  method GenerateSubtasks(config: Config, taskName: string, outcome: CallOutcome)
    returns (result: Result<seq<Subtask>, ServiceError>, sent: Option<Request>)
    ensures result == Answer(config, taskName, outcome) && sent == Sent(config, taskName)
    ensures !Configured(config) ==> sent == None && result == Err(ServiceUnavailable(ConfigMissing))
    ensures Configured(config) && Trim(taskName) == "" ==> sent == None && result == Ok([])
    ensures Configured(config) && Trim(taskName) != "" ==>
      sent == Some(BuildRequest(config.catalogId.value, taskName))
    ensures sent.Some? ==> match outcome
      case Replied(text) =>
        result == Ok(if text.Some? && text.value != "" then Subtasks(text.value) else [])
      case HttpError(status) =>
        result == Err(if status == 401 || status == 403 then Unauthorized(AuthFailed)
                      else ServiceUnavailable(GenerationFailed))
      case NoResponse => result == Err(ServiceUnavailable(Unavailable))
      case OtherFailure => result == Err(ServiceUnavailable(GenerationFailed))
  {
    if !Configured(config) {
      return Err(ServiceUnavailable(ConfigMissing)), None;
    }
    if Trim(taskName) == "" {
      return Ok([]), None;
    }
    sent := Some(BuildRequest(config.catalogId.value, taskName));
    match outcome {
      case Replied(text) =>
        if text.Some? && text.value != "" {
          result := Ok(Subtasks(text.value));
        } else {
          result := Ok([]);
        }
      case HttpError(status) =>
        if status == 401 || status == 403 {
          result := Err(Unauthorized(AuthFailed));
        } else {
          result := Err(ServiceUnavailable(GenerationFailed));
        }
      case NoResponse =>
        result := Err(ServiceUnavailable(Unavailable));
      case OtherFailure =>
        result := Err(ServiceUnavailable(GenerationFailed));
    }
  }
}
