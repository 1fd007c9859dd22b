/**
 * The line recognisers and the HTML the content parser's block passes
 * produce (features/content-parser.php): tables, task lists, headings,
 * lists, blockquotes, horizontal rules, and the paragraph and line-break
 * rules for plain text.
 *
 * Each regular expression the parser applies to one line is written out
 * as a function that says whether the line matches and what the capture
 * groups hold. Lines are split at "\n", so the recognisers are exact for
 * lines without a line feed; a line that still holds one is not
 * recognised.
 *
 * Inline formatting (`parse_inline_markdown`) is a parameter: it is a
 * chain of PCRE replacements that the model keeps abstract.
 */
module ContentBlocks {
  import opened Util
  import opened LineRuns

  // ---------------------------------------------------------------------
  // Regular-expression building blocks

  /** PCRE `\s`: space, tab, line feed, vertical tab, form feed, carriage return. */
  predicate PcreSpace(c: char) {
    c == ' ' || c == '\t' || c == '\n' || c == '\r' || c as int == 11 || c as int == 12
  }

  /** PCRE `\w`. */
  predicate WordChar(c: char) {
    ('a' <= c <= 'z') || ('A' <= c <= 'Z') || ('0' <= c <= '9') || c == '_'
  }

  predicate NoLineFeed(s: string) { forall i :: 0 <= i < |s| ==> s[i] != '\n' }

  /** Length of the run of PCRE white space at the start of `s`. */
  function LeadingSpaces(s: string): (n: nat)
    ensures n <= |s|
    ensures n < |s| ==> !PcreSpace(s[n])
    ensures n > 0 ==> PcreSpace(s[0])
  {
    if s != [] && PcreSpace(s[0]) then 1 + LeadingSpaces(s[1..]) else 0
  }

  /**
   * The capture of `\s+(.+)$` matched at the start of `s`: the greedy
   * white-space run gives back its last character when nothing follows it.
   */
  function SpaceThenRest(s: string): (r: Option<string>)
    requires NoLineFeed(s)
    ensures r.Some? <==> |s| >= 2 && PcreSpace(s[0])
    ensures r.Some? ==> r.value != [] && |r.value| < |s| && r.value == s[|s| - |r.value|..]
  {
    var n := LeadingSpaces(s);
    if n == 0 then None
    else if n < |s| then Some(s[n..])
    else if n >= 2 then Some(s[n - 1..])
    else None
  }

  /** A text with no line feed and no blank at either end. */
  predicate PlainText(text: string) {
    text != [] && NoLineFeed(text) && !PcreSpace(text[0]) && !IsSpace(text[0]) && !IsSpace(text[|text| - 1])
  }

  lemma PlainTextTrimmed(text: string)
    requires PlainText(text)
    ensures Trim(text) == text
  {
    TrimAround(0, text);
    assert Blanks(0) + text + Blanks(0) == text;
  }

  lemma {:induction false} RepeatNoLineFeed(c: char, n: nat)
    requires c != '\n'
    ensures NoLineFeed(Repeat(c, n))
  {
    if n > 0 { RepeatNoLineFeed(c, n - 1); }
  }

  lemma NoLineFeedConcat(a: string, b: string)
    requires NoLineFeed(a) && NoLineFeed(b)
    ensures NoLineFeed(a + b)
  {
    assert forall i :: 0 <= i < |a + b| ==> (a + b)[i] == if i < |a| then a[i] else b[i - |a|];
  }

  /** A single blank before a plain text is the white space `\s+` takes. */
  lemma SpaceThenText(text: string)
    requires text != [] && NoLineFeed(text) && !PcreSpace(text[0])
    ensures SpaceThenRest(" " + text) == Some(text)
  {
    var s := " " + text;
    assert s[1..] == text;
    assert LeadingSpaces(s) == 1;
  }

  /** `parse_inline_markdown`, which leaves an empty text ("" or "0") alone. */
  function Inline(inline: string -> string, text: string): (r: string)
    ensures EmptyStr(text) ==> r == text
  {
    if EmptyStr(text) then text else inline(text)
  }

  // ---------------------------------------------------------------------
  // Horizontal rules

  /** `^[-*_]{3,}$` on a trimmed line. */
  predicate IsRule(t: string) {
    |t| >= 3 && forall i :: 0 <= i < |t| ==> t[i] == '-' || t[i] == '*' || t[i] == '_'
  }

  const HrHtml := "<hr class=\"markdown-hr\">"

  /** `parse_horizontal_rules_from_lines` for one line. */
  function RuleLine(line: string): string
  {
    if IsRule(Trim(line)) then HrHtml else line
  }

  function RuleLines(lines: seq<string>): (r: seq<string>)
    ensures |r| == |lines|
    ensures forall i :: 0 <= i < |lines| ==> r[i] == RuleLine(lines[i])
  {
    if lines == [] then [] else RuleLines(lines[..|lines| - 1]) + [RuleLine(lines[|lines| - 1])]
  }

  /** `n` copies of `c`. */
  function Repeat(c: char, n: nat): (r: string)
    ensures |r| == n
  {
    if n == 0 then "" else [c] + Repeat(c, n - 1)
  }

  function Blanks(n: nat): string { Repeat(' ', n) }

  /** Three or more dashes, with any blanks around them, make a rule. */
  lemma RuleExample(n: nat, body: string)
    requires |body| >= 3 && forall i :: 0 <= i < |body| ==> body[i] == '-'
    ensures RuleLine(Blanks(n) + body + Blanks(n)) == HrHtml
  {
    TrimAround(n, body);
  }

  /** Trimming blanks around a body that neither starts nor ends with one. */
  lemma TrimAround(n: nat, body: string)
    requires body != [] && !IsSpace(body[0]) && !IsSpace(body[|body| - 1])
    ensures Trim(Blanks(n) + body + Blanks(n)) == body
  {
    TrimLeftPad(n, body + Blanks(n));
    assert Blanks(n) + body + Blanks(n) == Blanks(n) + (body + Blanks(n));
    TrimRightPad(body, n);
  }

  lemma {:induction false} TrimLeftPad(n: nat, s: string)
    requires s != [] && !IsSpace(s[0])
    ensures TrimLeft(Blanks(n) + s) == s
  {
    if n > 0 {
      var x := Blanks(n) + s;
      assert x[0] == ' ';
      assert x[1..] == Blanks(n - 1) + s;
      TrimLeftPad(n - 1, s);
    } else {
      assert Blanks(n) + s == s;
    }
  }

  /** `n` copies, written from the end. */
  lemma {:induction false} RepeatLast(c: char, n: nat)
    requires n > 0
    ensures Repeat(c, n) == Repeat(c, n - 1) + [c]
  {
    if n > 1 {
      RepeatLast(c, n - 1);
      assert Repeat(c, n) == [c] + (Repeat(c, n - 2) + [c]);
    }
  }

  lemma {:induction false} TrimRightPad(s: string, n: nat)
    requires s != [] && !IsSpace(s[|s| - 1])
    ensures TrimRight(s + Blanks(n)) == s
  {
    if n > 0 {
      RepeatLast(' ', n);
      var x := s + Blanks(n);
      assert x == (s + Blanks(n - 1)) + " ";
      assert x[|x| - 1] == ' ';
      assert x[..|x| - 1] == s + Blanks(n - 1);
      TrimRightPad(s, n - 1);
    } else {
      assert s + Blanks(n) == s;
    }
  }

  // ---------------------------------------------------------------------
  // Tables

  /** A table row: its trimmed text contains `|` and is not a rule. */
  predicate IsTableRow(line: string) {
    var t := Trim(line);
    '|' in t && !IsRule(t)
  }

  /** The rule test in the table-row condition can never fail: a line with `|` is never a rule. */
  lemma TableRowNeverRule(line: string)
    ensures IsTableRow(line) <==> '|' in Trim(line)
  {
    var t := Trim(line);
    if '|' in t {
      var i :| 0 <= i < |t| && t[i] == '|';
      assert !IsRule(t);
    }
  }

  function TrimEach(parts: seq<string>): (r: seq<string>)
    ensures |r| == |parts|
    ensures forall i :: 0 <= i < |parts| ==> r[i] == Trim(parts[i])
  {
    if parts == [] then [] else [Trim(parts[0])] + TrimEach(parts[1..])
  }

  /** The cells of a table row: the trimmed row without outer bars, cut at every bar, each cell trimmed. */
  function Cells(line: string): (r: seq<string>)
    ensures |r| >= 1
  {
    TrimEach(Split(TrimChar(Trim(line), '|'), '|'))
  }

  /** `^:?-+:?$` on a trimmed cell. */
  predicate SeparatorCell(c: string) {
    var a := if c != [] && c[0] == ':' then 1 else 0;
    var b := if |c| > a && c[|c| - 1] == ':' then |c| - 1 else |c|;
    a < b && forall i :: a <= i < b ==> c[i] == '-'
  }

  lemma SeparatorExamples()
    ensures SeparatorCell("---") && SeparatorCell(":-:") && SeparatorCell(":--") && SeparatorCell("-:")
    ensures !SeparatorCell(":") && !SeparatorCell("::") && !SeparatorCell("") && !SeparatorCell("a-")
  {
  }

  /** A table has a header exactly when it has a second row made of separator cells only. */
  predicate HasHeader(rows: seq<seq<string>>) {
    |rows| >= 2 && forall j :: 0 <= j < |rows[1]| ==> SeparatorCell(rows[1][j])
  }

  function RowsOf(lines: seq<string>): (r: seq<seq<string>>)
    ensures |r| == |lines|
  {
    if lines == [] then [] else RowsOf(lines[..|lines| - 1]) + [Cells(lines[|lines| - 1])]
  }

  /** The cells of one row, each as `open + inline(cell) + close`. */
  function CellsMarkup(cells: seq<string>, open: string, close: string, inline: string -> string): string
  {
    if cells == [] then ""
    else CellsMarkup(cells[..|cells| - 1], open, close, inline) + open + Inline(inline, cells[|cells| - 1]) + close
  }

  function RowMarkup(cells: seq<string>, inline: string -> string): string {
    "<tr>" + CellsMarkup(cells, "<td class=\"markdown-table-cell\">", "</td>", inline) + "</tr>"
  }

  function RowsMarkup(rows: seq<seq<string>>, inline: string -> string): string {
    if rows == [] then "" else RowsMarkup(rows[..|rows| - 1], inline) + RowMarkup(rows[|rows| - 1], inline)
  }

  function HeadMarkup(cells: seq<string>, inline: string -> string): string {
    "<thead><tr>" + CellsMarkup(cells, "<th class=\"markdown-table-header\">", "</th>", inline) + "</tr></thead>"
  }

  /** The rows that go into the table body: all of them, or those after the separator row. */
  function BodyRows(rows: seq<seq<string>>, header: bool): seq<seq<string>> {
    if !header then rows else if |rows| >= 2 then rows[2..] else []
  }

  /** `generate_table_html`. */
  function TableMarkup(rows: seq<seq<string>>, header: bool, inline: string -> string): (r: string)
    ensures rows == [] <==> r == ""
  {
    if rows == [] then ""
    else
      "<table class=\"markdown-table\">" + (if header then HeadMarkup(rows[0], inline) else "") +
      "<tbody>" + RowsMarkup(BodyRows(rows, header), inline) + "</tbody></table>"
  }

  /** The separator row is never emitted: whatever it holds, the table reads the same. */
  lemma SeparatorRowIgnored(rows: seq<seq<string>>, other: seq<string>, inline: string -> string)
    requires |rows| >= 2
    ensures TableMarkup(rows, true, inline) == TableMarkup(rows[1 := other], true, inline)
  {
    assert rows[1 := other][2..] == rows[2..];
  }

  /** Without a header every row is a body row, in order. */
  lemma NoHeaderAllRows(rows: seq<seq<string>>, inline: string -> string)
    requires rows != []
    ensures TableMarkup(rows, false, inline) ==
      "<table class=\"markdown-table\"><tbody>" + RowsMarkup(rows, inline) + "</tbody></table>"
  {
  }

  function TableKind(line: string): Option<bool> {
    if IsTableRow(line) then Some(true) else None
  }

  /** One run of table rows as a table. */
  function TableRun(inline: string -> string, run: seq<string>): string {
    TableMarkup(RowsOf(run), HasHeader(RowsOf(run)), inline)
  }

  function TableRender(inline: string -> string): (bool, seq<string>) -> string {
    (k: bool, run: seq<string>) => TableRun(inline, run)
  }

  /** `parse_tables_from_lines`: every maximal run of table rows becomes one table. */
  function Tables(lines: seq<string>, inline: string -> string): seq<string> {
    Group(lines, TableKind, TableRender(inline))
  }

  /** Lines that are not table rows pass through unchanged. */
  lemma TablesPassThrough(lines: seq<string>, inline: string -> string)
    requires forall i :: 0 <= i < |lines| ==> !IsTableRow(lines[i])
    ensures Tables(lines, inline) == lines
  {
    GroupNoRuns(lines, TableKind, TableRender(inline));
  }

  /** A block of table rows becomes one table line, headed exactly when its second row is a separator. */
  lemma OneTable(run: seq<string>, inline: string -> string)
    requires run != [] && forall i :: 0 <= i < |run| ==> IsTableRow(run[i])
    ensures Tables(run, inline) == [TableRun(inline, run)]
  {
    GroupOneRun(run, TableKind, TableRender(inline), true);
  }

  // ---------------------------------------------------------------------
  // Task lists

  datatype Task = Task(checked: bool, text: string)

  /** `[-*+]` */
  predicate Bullet(c: char) {
    c == '-' || c == '*' || c == '+'
  }

  /** `[ x]` under the case-insensitive flag. */
  predicate BoxMark(c: char) {
    c == ' ' || c == 'x' || c == 'X'
  }

  /** `^[-*+]\s+\[([ x])\]\s+(.+)$` (case-insensitive) on the trimmed line. */
  function TaskItem(line: string): (r: Option<Task>)
    ensures r.Some? ==> |Trim(line)| >= 6 && Bullet(Trim(line)[0])
  {
    var t := Trim(line);
    if !NoLineFeed(t) || t == [] || !Bullet(t[0]) then None
    else
      var s := t[1..];
      var n := LeadingSpaces(s);
      if n == 0 || |s| < n + 3 || s[n] != '[' || s[n + 2] != ']' || !BoxMark(s[n + 1]) then None
      else
        match SpaceThenRest(s[n + 3..])
        case None => None
        case Some(g) => Some(Task(s[n + 1] != ' ', Trim(g)))
  }

  /** What the task-list pattern captures, once its parts are known. */
  lemma TaskWhen(line: string, n: nat, g: string)
    requires Trim(line) != [] && NoLineFeed(Trim(line)) && Bullet(Trim(line)[0])
    requires n == LeadingSpaces(Trim(line)[1..]) && n > 0 && |Trim(line)[1..]| >= n + 3
    requires Trim(line)[1..][n] == '[' && Trim(line)[1..][n + 2] == ']' && BoxMark(Trim(line)[1..][n + 1])
    requires NoLineFeed(Trim(line)[1..][n + 3..]) && SpaceThenRest(Trim(line)[1..][n + 3..]) == Some(g)
    ensures TaskItem(line) == Some(Task(Trim(line)[1..][n + 1] != ' ', Trim(g)))
  {
  }

  /** `- [x] text` is a checked task and `- [ ] text` an open one, with that text. */
  lemma TaskOfShape(m: char, box: char, text: string)
    requires Bullet(m) && BoxMark(box) && PlainText(text)
    ensures TaskItem([m] + " [" + [box] + "] " + text) == Some(Task(box != ' ', text))
  {
    var line := TaskLine(m, box, text);
    var s := line[1..];
    assert s[0] == ' ' && s[1] == '[' && s[2] == box && s[3] == ']' && s[4..] == " " + text by {
      var mid := " [" + [box] + "]";
      assert s == mid + (" " + text) && |mid| == 4;
    }
    assert LeadingSpaces(s) == 1;
    assert SpaceThenRest(s[4..]) == Some(text) && NoLineFeed(s[4..]) by {
      SpaceThenText(text);
      NoLineFeedConcat(" ", text);
    }
    TaskWhen(line, 1, text);
    PlainTextTrimmed(text);
  }

  /** A task-list line of the given shape is already trimmed and has no line feed. */
  lemma TaskLine(m: char, box: char, text: string) returns (line: string)
    requires Bullet(m) && BoxMark(box) && PlainText(text)
    ensures line == [m] + " [" + [box] + "] " + text
    ensures Trim(line) == line && NoLineFeed(line)
    ensures line[1..] == " [" + [box] + "]" + " " + text
  {
    var head := [m, ' ', '[', box, ']'];
    line := head + (" " + text);
    assert [m] + " [" + [box] + "] " + text == line by {
      assert [m] + " [" + [box] + "]" == head;
    }
    assert NoLineFeed(line) by {
      assert NoLineFeed(head) by {
        assert m != '\n' && box != '\n';
      }
      NoLineFeedConcat(" ", text);
      NoLineFeedConcat(head, " " + text);
    }
    assert Trim(line) == line by {
      assert line[0] == m && line[|line| - 1] == text[|text| - 1];
      TrimAround(0, line);
      assert Blanks(0) + line + Blanks(0) == line;
    }
  }

  function TaskHtml(task: Task, inline: string -> string): string {
    "<li class=\"markdown-task-item " + (if task.checked then "checked" else "unchecked") + "\">" +
    "<input type=\"checkbox\" " + (if task.checked then "checked" else "") + " disabled class=\"markdown-task-checkbox\"> " +
    "<span class=\"markdown-task-text\">" + Inline(inline, task.text) + "</span>" + "</li>"
  }

  function TaskKind(line: string): Option<bool> {
    if TaskItem(line).Some? then Some(true) else None
  }

  function TaskItemsHtml(run: seq<string>, inline: string -> string): string {
    if run == [] then ""
    else
      var t := TaskItem(run[|run| - 1]);
      TaskItemsHtml(run[..|run| - 1], inline) + (if t.Some? then TaskHtml(t.value, inline) else "")
  }

  /** One run of task items as a task list. */
  function TaskListHtml(inline: string -> string, run: seq<string>): string {
    "<ul class=\"markdown-task-list\">" + TaskItemsHtml(run, inline) + "</ul>"
  }

  function TaskRender(inline: string -> string): (bool, seq<string>) -> string {
    (k: bool, run: seq<string>) => TaskListHtml(inline, run)
  }

  /** `parse_task_lists_from_lines`. */
  function TaskLists(lines: seq<string>, inline: string -> string): seq<string> {
    Group(lines, TaskKind, TaskRender(inline))
  }

  /** Consecutive task items make one list. */
  lemma OneTaskList(run: seq<string>, inline: string -> string)
    requires run != [] && forall i :: 0 <= i < |run| ==> TaskItem(run[i]).Some?
    ensures TaskLists(run, inline) == [TaskListHtml(inline, run)]
  {
    GroupOneRun(run, TaskKind, TaskRender(inline), true);
  }

  // ---------------------------------------------------------------------
  // Headings

  datatype HeadingMatch = HeadingMatch(level: nat, text: string)

  /** Number of `#` characters at the start of `s`. */
  function Hashes(s: string): (n: nat)
    ensures n <= |s|
    ensures n < |s| ==> s[n] != '#'
    ensures n > 0 ==> s[0] == '#'
  {
    if s != [] && s[0] == '#' then 1 + Hashes(s[1..]) else 0
  }

  /** `^(#{1,6})\s+(.+)$` on the line as it is; the text is the trimmed second group. */
  function Heading(line: string): (r: Option<HeadingMatch>)
    ensures r.Some? ==> 1 <= r.value.level <= 6 && r.value.level == Hashes(line)
  {
    var n := Hashes(line);
    if !NoLineFeed(line) || n < 1 || n > 6 then None
    else
      match SpaceThenRest(line[n..])
      case None => None
      case Some(g) => Some(HeadingMatch(n, Trim(g)))
  }

  /** What the heading pattern captures, once its parts are known. */
  lemma HeadingWhen(line: string, n: nat, g: string)
    requires NoLineFeed(line) && n == Hashes(line) && 1 <= n <= 6
    requires NoLineFeed(line[n..]) && SpaceThenRest(line[n..]) == Some(g)
    ensures Heading(line) == Some(HeadingMatch(n, Trim(g)))
  {
  }

  /** A line of `n` hashes (1 to 6), a blank and a text is a heading of level `n` with that text. */
  lemma HeadingOfLevel(n: nat, text: string)
    requires 1 <= n <= 6 && PlainText(text)
    ensures Heading(Repeat('#', n) + " " + text) == Some(HeadingMatch(n, text))
  {
    var line := Repeat('#', n) + " " + text;
    assert line == Repeat('#', n) + (" " + text);
    HashesOfRepeat(n, " " + text);
    RepeatNoLineFeed('#', n);
    NoLineFeedConcat(" ", text);
    NoLineFeedConcat(Repeat('#', n), " " + text);
    assert line[n..] == " " + text;
    SpaceThenText(text);
    HeadingWhen(line, n, text);
    PlainTextTrimmed(text);
  }

  lemma {:induction false} HashesOfRepeat(n: nat, rest: string)
    requires rest != [] && rest[0] != '#'
    ensures Hashes(Repeat('#', n) + rest) == n
  {
    if n > 0 {
      var x := Repeat('#', n) + rest;
      assert x[0] == '#';
      assert x[1..] == Repeat('#', n - 1) + rest;
      HashesOfRepeat(n - 1, rest);
    } else {
      assert Repeat('#', n) + rest == rest;
    }
  }

  /** Seven or more hashes never make a heading. */
  lemma NoDeepHeading(line: string)
    requires Hashes(line) > 6
    ensures Heading(line).None?
  {
  }

  /** The level is the number of hashes; it is used in both the opening and the closing tag. */
  function HeadingHtml(level: nat, id: string, text: string): string {
    var l := NatToString(level);
    "<h" + l + " id=\"" + id + "\" class=\"markdown-heading markdown-h" + l + "\">" + text + "</h" + l + ">"
  }

  /** The id `generate_heading_id` tries after `k` collisions: the base, then `base-1`, `base-2`, ... */
  function Candidate(base: string, k: nat): string {
    if k == 0 then base else base + "-" + NatToString(k)
  }

  lemma CandidateInjective(base: string, j: nat, k: nat)
    requires Candidate(base, j) == Candidate(base, k)
    ensures j == k
  {
    if j != 0 && k != 0 {
      var a := Candidate(base, j);
      assert a[|base| + 1..] == NatToString(j);
      assert Candidate(base, k)[|base| + 1..] == NatToString(k);
      NatToStringInjective(j, k);
    }
  }

  // ---------------------------------------------------------------------
  // Lists

  datatype ListType = Ul | Ol

  datatype ListMatch = ListMatch(kind: ListType, content: string)

  function LeadingDigits(s: string): (n: nat)
    ensures n <= |s|
    ensures n < |s| ==> !IsDigit(s[n])
    ensures n > 0 ==> IsDigit(s[0])
  {
    if s != [] && IsDigit(s[0]) then 1 + LeadingDigits(s[1..]) else 0
  }

  /** `^[-*+]\s+(.+)$`, else `^\d+\.\s+(.+)$`, on the trimmed line; the content is trimmed. */
  function ListItem(line: string): (r: Option<ListMatch>)
    ensures r.Some? ==> Trim(line) != [] && (r.value.kind == Ul <==> Bullet(Trim(line)[0]))
  {
    var t := Trim(line);
    if !NoLineFeed(t) || t == [] then None
    else if Bullet(t[0]) && SpaceThenRest(t[1..]).Some? then
      Some(ListMatch(Ul, Trim(SpaceThenRest(t[1..]).value)))
    else
      var d := LeadingDigits(t);
      if d >= 1 && d < |t| && t[d] == '.' && SpaceThenRest(t[d + 1..]).Some? then
        Some(ListMatch(Ol, Trim(SpaceThenRest(t[d + 1..]).value)))
      else None
  }

  lemma ListWhenUl(line: string, g: string)
    requires Trim(line) != [] && NoLineFeed(Trim(line)) && Bullet(Trim(line)[0])
    requires SpaceThenRest(Trim(line)[1..]) == Some(g)
    ensures ListItem(line) == Some(ListMatch(Ul, Trim(g)))
  {
  }

  lemma ListWhenOl(line: string, d: nat, g: string)
    requires Trim(line) != [] && NoLineFeed(Trim(line)) && !Bullet(Trim(line)[0])
    requires d == LeadingDigits(Trim(line)) && 1 <= d < |Trim(line)| && Trim(line)[d] == '.'
    requires SpaceThenRest(Trim(line)[d + 1..]) == Some(g)
    ensures ListItem(line) == Some(ListMatch(Ol, Trim(g)))
  {
  }

  /** `- text`, `* text` and `+ text` are unordered items with that text. */
  lemma UnorderedOfShape(m: char, text: string)
    requires Bullet(m) && PlainText(text)
    ensures ListItem([m] + " " + text) == Some(ListMatch(Ul, text))
  {
    var line := [m] + (" " + text);
    assert [m] + " " + text == line;
    NoLineFeedConcat(" ", text);
    NoLineFeedConcat([m], " " + text);
    TrimAround(0, line);
    assert Blanks(0) + line + Blanks(0) == line;
    assert line[1..] == " " + text;
    SpaceThenText(text);
    ListWhenUl(line, text);
    PlainTextTrimmed(text);
  }

  /** `7. text` is an ordered item with that text. */
  lemma OrderedOfShape(digit: char, text: string)
    requires digit in "0123456789" && PlainText(text)
    ensures ListItem([digit] + ". " + text) == Some(ListMatch(Ol, text))
  {
    var line := OrderedLine(digit, text);
    assert LeadingDigits(line[1..]) == 0;
    assert LeadingDigits(line) == 1;
    SpaceThenText(text);
    ListWhenOl(line, 1, text);
    PlainTextTrimmed(text);
  }

  lemma OrderedLine(digit: char, text: string) returns (line: string)
    requires digit in "0123456789" && PlainText(text)
    ensures line == [digit] + ". " + text
    ensures Trim(line) == line && NoLineFeed(line)
    ensures line[0] == digit && line[1] == '.' && line[2..] == " " + text
  {
    line := [digit, '.'] + (" " + text);
    assert [digit] + ". " + text == line;
    assert NoLineFeed([digit, '.']);
    assert line[|line| - 1] == text[|text| - 1];
    NoLineFeedConcat(" ", text);
    NoLineFeedConcat([digit, '.'], " " + text);
    TrimAround(0, line);
    assert Blanks(0) + line + Blanks(0) == line;
  }

  function ListKind(line: string): Option<ListType> {
    match ListItem(line)
    case None => None
    case Some(m) => Some(m.kind)
  }

  function ListItemsHtml(run: seq<string>, inline: string -> string): string {
    if run == [] then ""
    else
      var m := ListItem(run[|run| - 1]);
      ListItemsHtml(run[..|run| - 1], inline) +
      (if m.Some? then "<li class=\"markdown-list-item\">" + Inline(inline, m.value.content) + "</li>" else "")
  }

  function TagName(t: ListType): string {
    if t == Ul then "ul" else "ol"
  }

  /** `close_current_list`. */
  function ListHtml(t: ListType, items: string): string {
    "<" + TagName(t) + " class=\"markdown-list\">" + items + "</" + TagName(t) + ">"
  }

  /** One run of list items of type `t` as a list. */
  function ListRun(inline: string -> string, t: ListType, run: seq<string>): string {
    ListHtml(t, ListItemsHtml(run, inline))
  }

  function ListRender(inline: string -> string): (ListType, seq<string>) -> string {
    (t: ListType, run: seq<string>) => ListRun(inline, t, run)
  }

  /** `parse_lists_from_lines`. */
  function Lists(lines: seq<string>, inline: string -> string): seq<string> {
    Group(lines, ListKind, ListRender(inline))
  }

  /** Consecutive items of one type make a single list. */
  lemma OneList(run: seq<string>, t: ListType, inline: string -> string)
    requires run != [] && forall i :: 0 <= i < |run| ==> ListKind(run[i]) == Some(t)
    ensures Lists(run, inline) == [ListRun(inline, t, run)]
  {
    GroupOneRun(run, ListKind, ListRender(inline), t);
  }

  /** A change of list type closes the current list before the next one opens. */
  lemma ListTypeChange(r1: seq<string>, r2: seq<string>, inline: string -> string)
    requires r1 != [] && r2 != []
    requires forall i :: 0 <= i < |r1| ==> ListKind(r1[i]) == Some(Ul)
    requires forall i :: 0 <= i < |r2| ==> ListKind(r2[i]) == Some(Ol)
    ensures Lists(r1 + r2, inline) == [ListRun(inline, Ul, r1), ListRun(inline, Ol, r2)]
  {
    GroupKindChange(r1, r2, ListKind, ListRender(inline), Ul, Ol);
  }

  // ---------------------------------------------------------------------
  // Blockquotes

  /** `^>\s?(.*)$` on the line as it is: the text after `>` and at most one blank. */
  function QuoteLine(line: string): (r: Option<string>)
    ensures r.Some? ==> line != [] && line[0] == '>' && |r.value| < |line| && r.value == line[|line| - |r.value|..]
    ensures r.Some? ==> |r.value| >= |line| - 2
  {
    if !NoLineFeed(line) || line == [] || line[0] != '>' then None
    else if |line| >= 2 && PcreSpace(line[1]) then Some(line[2..])
    else Some(line[1..])
  }

  /** `^>+\s?` removed: the leading run of `>`, then at most one blank; a line not starting with `>` is kept whole. */
  function StripQuoteMarks(s: string): (r: string)
    ensures |r| <= |s|
    ensures s == [] || s[0] != '>' ==> r == s
  {
    if s != [] && s[0] == '>' then AfterQuoteMarks(s[1..]) else s
  }

  /** What follows the first `>`: further `>` are dropped, then at most one blank. */
  function AfterQuoteMarks(s: string): (r: string)
    ensures |r| <= |s|
    decreases |s|
  {
    if s != [] && s[0] == '>' then AfterQuoteMarks(s[1..])
    else if s != [] && PcreSpace(s[0]) then s[1..]
    else s
  }

  /** A run of `>` followed by one blank loses both, and nothing more: a second blank stays. */
  lemma {:induction false} StripMarksAndBlank(n: nat, c: char, t: string)
    requires n >= 1 && PcreSpace(c)
    ensures StripQuoteMarks(Repeat('>', n) + [c] + t) == t
  {
    AfterMarksAndBlank(n - 1, c, t);
    assert Repeat('>', n) + [c] + t == ['>'] + (Repeat('>', n - 1) + [c] + t);
  }

  lemma {:induction false} AfterMarksAndBlank(n: nat, c: char, t: string)
    requires PcreSpace(c)
    ensures AfterQuoteMarks(Repeat('>', n) + [c] + t) == t
  {
    if n == 0 {
      assert Repeat('>', 0) + [c] + t == [c] + t;
    } else {
      AfterMarksAndBlank(n - 1, c, t);
      assert Repeat('>', n) + [c] + t == ['>'] + (Repeat('>', n - 1) + [c] + t);
    }
  }

  /** A run of `>` followed by text that starts with neither `>` nor a blank loses only the marks. */
  lemma {:induction false} StripMarksOnly(n: nat, t: string)
    requires n >= 1 && (t == [] || (t[0] != '>' && !PcreSpace(t[0])))
    ensures StripQuoteMarks(Repeat('>', n) + t) == t
  {
    var x := Repeat('>', n) + t;
    assert x[0] == '>' && x[1..] == Repeat('>', n - 1) + t;
    AfterMarksOnly(n - 1, t);
  }

  lemma {:induction false} AfterMarksOnly(n: nat, t: string)
    requires t == [] || (t[0] != '>' && !PcreSpace(t[0]))
    ensures AfterQuoteMarks(Repeat('>', n) + t) == t
  {
    var x := Repeat('>', n) + t;
    if n == 0 {
      assert x == t;
    } else {
      assert x[0] == '>' && x[1..] == Repeat('>', n - 1) + t;
      AfterMarksOnly(n - 1, t);
    }
  }

  /** The paragraphs of the quoted lines: maximal groups of non-blank lines, each joined with "\n". */
  function Paragraphs(lines: seq<string>): seq<string>
  {
    ParagraphsFrom(lines, [])
  }

  /** `current` is the paragraph being collected. */
  function ParagraphsFrom(lines: seq<string>, current: seq<string>): seq<string>
    decreases |lines|
  {
    if lines == [] then Flush(current)
    else if !TextLine(lines[0]) then Flush(current) + ParagraphsFrom(lines[1..], [])
    else ParagraphsFrom(lines[1..], current + [StripQuoteMarks(lines[0])])
  }

  /** The collected lines joined into one paragraph, or none when there is nothing to show. */
  function Flush(current: seq<string>): seq<string> {
    if current == [] || Join(current, "\n") == [] then [] else [Join(current, "\n")]
  }

  /** A quoted line whose text, after its marks, is neither blank nor empty in PHP's sense. */
  predicate TextLine(l: string) {
    !EmptyStr(Trim(StripQuoteMarks(l)))
  }

  function InlineEach(ps: seq<string>, inline: string -> string): (r: seq<string>)
    ensures |r| == |ps|
    ensures forall i :: 0 <= i < |ps| ==> r[i] == Inline(inline, ps[i])
  {
    if ps == [] then [] else [Inline(inline, ps[0])] + InlineEach(ps[1..], inline)
  }

  /** `process_blockquote_content` as written: several paragraphs are only joined by `</p>\n<p>`. */
  function QuoteContentAsWritten(lines: seq<string>, inline: string -> string): string {
    if lines == [] then ""
    else
      var ps := InlineEach(Paragraphs(lines), inline);
      if |ps| == 1 then ps[0] else Join(ps, "</p>\n<p>")
  }

  /** The quote content with every paragraph of a multi-paragraph quote wrapped in `<p>`...`</p>`. */
  function QuoteContent(lines: seq<string>, inline: string -> string): string {
    if lines == [] then ""
    else
      var ps := InlineEach(Paragraphs(lines), inline);
      if |ps| == 1 then ps[0] else Wrapped(ps)
  }

  function Wrapped(ps: seq<string>): string {
    if ps == [] then "" else "<p>" + ps[0] + "</p>" + (if |ps| > 1 then "\n" else "") + Wrapped(ps[1..])
  }

  /** Each paragraph of a wrapped multi-paragraph quote sits between its own `<p>` and `</p>`. */
  lemma {:induction false} WrappedEach(ps: seq<string>, k: nat)
    requires k < |ps|
    ensures Contains(Wrapped(ps), "<p>" + ps[k] + "</p>")
  {
    var rest := (if |ps| > 1 then "\n" else "") + Wrapped(ps[1..]);
    assert Wrapped(ps) == "<p>" + ps[0] + "</p>" + rest;
    if k == 0 {
      ContainsInfix("", "<p>" + ps[0] + "</p>", rest);
      assert "" + ("<p>" + ps[0] + "</p>") + rest == Wrapped(ps);
    } else {
      WrappedEach(ps[1..], k - 1);
      var head := "<p>" + ps[0] + "</p>" + (if |ps| > 1 then "\n" else "");
      assert Wrapped(ps) == head + Wrapped(ps[1..]) + "";
      ContainsMiddle(head, Wrapped(ps[1..]), "", "<p>" + ps[k] + "</p>");
    }
  }

  /** A quoted line that is blank after its marks closes the paragraph being collected. */
  lemma ParagraphsBlank(l: string, rest: seq<string>, current: seq<string>)
    requires !TextLine(l)
    ensures ParagraphsFrom([l] + rest, current) == Flush(current) + ParagraphsFrom(rest, [])
  {
    assert ([l] + rest)[1..] == rest;
  }

  /** A quoted line with text joins the paragraph being collected. */
  lemma ParagraphsText(l: string, rest: seq<string>, current: seq<string>)
    requires TextLine(l)
    ensures ParagraphsFrom([l] + rest, current) == ParagraphsFrom(rest, current + [StripQuoteMarks(l)])
  {
    assert ([l] + rest)[1..] == rest;
  }


  lemma ParagraphsLast(b: string)
    requires TextLine(b)
    ensures ParagraphsFrom([b], []) == [StripQuoteMarks(b)]
  {
    var e: seq<string> := [];
    ParagraphsText(b, e, e);
    assert [b] + e == [b];
    assert e + [StripQuoteMarks(b)] == [StripQuoteMarks(b)];
    assert Join([StripQuoteMarks(b)], "\n") == StripQuoteMarks(b);
  }

  lemma FlushOne(p: string)
    requires p != []
    ensures Flush([p]) == [p]
  {
    assert Join([p], "\n") == p;
  }

  lemma ParagraphsClose(blank: string, b: string, sa: string)
    requires !TextLine(blank) && TextLine(b) && sa != []
    ensures ParagraphsFrom([blank, b], [sa]) == [sa, StripQuoteMarks(b)]
  {
    ParagraphsBlank(blank, [b], [sa]);
    assert [blank] + [b] == [blank, b];
    FlushOne(sa);
    ParagraphsLast(b);
  }

  /** A text line `a`, a blank line, a text line `b` form exactly two paragraphs. */
  lemma ParagraphsTwo(a: string, blank: string, b: string)
    requires TextLine(a) && TextLine(b) && !TextLine(blank)
    ensures Paragraphs([a, blank, b]) == [StripQuoteMarks(a), StripQuoteMarks(b)]
  {
    assert Paragraphs([a, blank, b]) == ParagraphsFrom([blank, b], [StripQuoteMarks(a)]) by {
      var e: seq<string> := [];
      ParagraphsText(a, [blank, b], e);
      assert [a] + [blank, b] == [a, blank, b];
      assert e + [StripQuoteMarks(a)] == [StripQuoteMarks(a)];
    }
    ParagraphsClose(blank, b, StripQuoteMarks(a));
  }

  /**
   * Two quoted paragraphs come out unbalanced as written: the first lacks its
   * opening `<p>` and the last its closing `</p>`; the corrected content wraps both.
   */
  lemma QuoteParagraphsUnbalanced(a: string, blank: string, b: string, inline: string -> string)
    requires TextLine(a) && TextLine(b) && !TextLine(blank)
    ensures QuoteContentAsWritten([a, blank, b], inline)
         == Inline(inline, StripQuoteMarks(a)) + "</p>\n<p>" + Inline(inline, StripQuoteMarks(b))
    ensures QuoteContent([a, blank, b], inline)
         == "<p>" + Inline(inline, StripQuoteMarks(a)) + "</p>\n<p>" + Inline(inline, StripQuoteMarks(b)) + "</p>"
  {
    ParagraphsTwo(a, blank, b);
    var ps := InlineEach(Paragraphs([a, blank, b]), inline);
    assert ps == [Inline(inline, StripQuoteMarks(a)), Inline(inline, StripQuoteMarks(b))];
    TwoParagraphs(ps[0], ps[1]);
  }

  /** Two paragraphs, joined as written and wrapped as intended. */
  lemma TwoParagraphs(x: string, y: string)
    ensures Join([x, y], "</p>\n<p>") == x + "</p>\n<p>" + y
    ensures Wrapped([x, y]) == "<p>" + x + "</p>\n<p>" + y + "</p>"
  {
    assert [x, y][1..] == [y];
    assert Wrapped([y]) == "<p>" + y + "</p>" by {
      assert [y][1..] == [];
    }
  }

  function QuoteKind(line: string): Option<bool> {
    if QuoteLine(line).Some? then Some(true) else None
  }

  function QuoteTexts(run: seq<string>): (r: seq<string>)
    ensures |r| == |run|
  {
    if run == [] then []
    else
      var q := QuoteLine(run[|run| - 1]);
      QuoteTexts(run[..|run| - 1]) + [if q.Some? then q.value else ""]
  }

  /** One run of quoted lines as a blockquote. */
  function QuoteHtml(inline: string -> string, run: seq<string>): string {
    "<blockquote class=\"markdown-blockquote\">" + QuoteContent(QuoteTexts(run), inline) + "</blockquote>"
  }

  function QuoteRender(inline: string -> string): (bool, seq<string>) -> string {
    (k: bool, run: seq<string>) => QuoteHtml(inline, run)
  }

  /** `parse_blockquotes_from_lines`. */
  function Blockquotes(lines: seq<string>, inline: string -> string): seq<string> {
    Group(lines, QuoteKind, QuoteRender(inline))
  }

  // ---------------------------------------------------------------------
  // Line breaks and paragraphs

  /** The lines `process_line_breaks` keeps: right-trimmed, and not empty in PHP's sense. */
  function KeptLines(lines: seq<string>): (r: seq<string>)
    ensures |r| <= |lines|
  {
    if lines == [] then []
    else
      var rest := KeptLines(lines[..|lines| - 1]);
      var l := TrimRight(lines[|lines| - 1]);
      if EmptyStr(l) then rest else rest + [l]
  }

  /** `process_line_breaks`. */
  function LineBreaks(text: string): string {
    Join(KeptLines(Split(text, '\n')), "<br>")
  }

  /** The output of `process_line_breaks` never contains a line feed. */
  lemma LineBreaksNoLineFeed(text: string)
    ensures '\n' !in LineBreaks(text)
  {
    var parts := Split(text, '\n');
    KeptLinesFree(parts, '\n');
    JoinFreeSep(KeptLines(parts), "<br>", '\n');
  }

  /** A character no line holds is in no kept line. */
  lemma {:induction false} KeptLinesFree(lines: seq<string>, c: char)
    requires forall k :: 0 <= k < |lines| ==> c !in lines[k]
    ensures forall k :: 0 <= k < |KeptLines(lines)| ==> c !in KeptLines(lines)[k]
  {
    if lines != [] {
      var init := lines[..|lines| - 1];
      assert forall k :: 0 <= k < |init| ==> init[k] == lines[k];
      KeptLinesFree(init, c);
      var last := lines[|lines| - 1];
      var l := TrimRight(last);
      assert forall m :: 0 <= m < |l| ==> l[m] == last[m];
    }
  }

  lemma {:induction false} JoinFreeSep(parts: seq<string>, sep: string, c: char)
    requires c !in sep
    requires forall k :: 0 <= k < |parts| ==> c !in parts[k]
    ensures c !in Join(parts, sep)
  {
    if |parts| > 1 {
      JoinFreeSep(parts[1..], sep, c);
    }
  }

  /** A single line keeps its right-trimmed text unless that is empty in PHP's sense. */
  lemma LineBreaksOneLine(text: string)
    requires '\n' !in text
    ensures LineBreaks(text) == if EmptyStr(TrimRight(text)) then "" else TrimRight(text)
  {
    SplitNoSep(text, '\n');
    assert [text][..0] == [];
  }

  lemma {:induction false} SplitNoSep(s: string, c: char)
    requires c !in s
    ensures Split(s, c) == [s]
    decreases |s|
  {
    if s != [] {
      SplitNoSep(s[1..], c);
      assert [s[0]] + s[1..] == s;
    }
  }

  lemma SplitTwoLines(a: string, b: string)
    requires '\n' !in a && '\n' !in b
    ensures Split(a + "\n\n" + b, '\n') == [a, "", b]
  {
    SplitAt("", b, '\n');
    assert "" + "\n" + b == "\n" + b;
    SplitNoSep(b, '\n');
    SplitAt(a, "\n" + b, '\n');
    assert a + "\n\n" + b == a + "\n" + ("\n" + b);
  }

  lemma KeptThree(a: string, b: string)
    requires !EmptyStr(TrimRight(a)) && !EmptyStr(TrimRight(b))
    ensures KeptLines([a, "", b]) == [TrimRight(a), TrimRight(b)]
  {
    var parts := [a, "", b];
    assert parts[..2] == [a, ""];
    assert parts[..2][..1] == [a];
    assert [a][..0] == [];
    assert KeptLines([a]) == [TrimRight(a)];
    assert TrimRight("") == "";
    assert KeptLines([a, ""]) == [TrimRight(a)];
  }

  /** Blank lines between two text lines disappear; the two lines are joined by one `<br>`. */
  lemma LineBreaksTwoLines(a: string, b: string)
    requires '\n' !in a && '\n' !in b
    requires !EmptyStr(TrimRight(a)) && !EmptyStr(TrimRight(b))
    ensures LineBreaks(a + "\n\n" + b) == TrimRight(a) + "<br>" + TrimRight(b)
  {
    SplitTwoLines(a, b);
    KeptThree(a, b);
    var kept := [TrimRight(a), TrimRight(b)];
    assert Join(kept[1..], "<br>") == TrimRight(b);
  }

  /** Splitting at the first separator. */
  lemma {:induction false} SplitAt(a: string, b: string, c: char)
    requires c !in a
    ensures Split(a + [c] + b, c) == [a] + Split(b, c)
    decreases |a|
  {
    if a == [] {
      assert a + [c] + b == [c] + b;
      assert ([c] + b)[1..] == b;
    } else {
      SplitAt(a[1..], b, c);
      assert (a + [c] + b)[1..] == a[1..] + [c] + b;
      assert [a[0]] + a[1..] == a;
    }
  }
}
