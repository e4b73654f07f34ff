// Splitting text into the commands a shell reads (src/lib/shellCommands.ts):
// a command is a line, or the lines that go on with it because of a
// backslash, an open quote, a here-document or an open block.
module ShellCommands {
  import opened Sequences
  import opened JavaScriptText

  datatype Heredoc = Heredoc(word: string, stripTabs: bool)

  datatype Scan = Scan(quote: Option<char>, blocks: nat, leads: nat, parens: nat, heredocs: seq<Heredoc>)

  const INITIAL := Scan(None, 0, 0, 0, [])

  const LEADS: set<string> := {"if", "elif", "while", "until", "for", "select"}
  const PREFIXES: set<string> := {"then", "do", "else", "elif", "if", "while", "until", "!", "time", "{"}

  predicate IsQuote(c: char) {
    c == '\'' || c == '"' || c == '`'
  }

  predicate IsOperator(c: char) {
    c == ';' || c == '&' || c == '|' || c == '(' || c == ')'
  }

  // What ends a word.
  predicate IsBreak(c: char) {
    IsSpace(c) || IsOperator(c) || c == '<' || c == '>' || IsQuote(c) || c == '\\'
  }

  function Less(n: nat): nat {
    if n == 0 then 0 else n - 1
  }

  // ----- keywords -----

  // ` in`, at the end or before a space.
  predicate InAt(rest: string, k: nat) {
    && k + 3 <= |rest| && IsSpace(rest[k]) && rest[k + 1] == 'i' && rest[k + 2] == 'n'
    && (k + 3 == |rest| || IsSpace(rest[k + 3]))
  }

  predicate HasIn(rest: string) {
    exists k: nat :: k < |rest| && InAt(rest, k)
  }

  // What a word changes where a command could begin.
  function NoteKeyword(word: string, rest: string, s: Scan): Scan {
    if word in LEADS then
      // An `elif` stands within the block it closes.
      s.(leads := s.leads + 1, blocks := if word == "elif" then Less(s.blocks) else s.blocks)
    else if (word == "then" || word == "do") && s.leads > 0 then s.(leads := s.leads - 1, blocks := s.blocks + 1)
    else if word == "case" && HasIn(rest) then s.(blocks := s.blocks + 1)
    else if word == "fi" || word == "done" || word == "esac" then s.(blocks := Less(s.blocks))
    // In fish nothing but `end` follows a head, which counts as a lead until
    // then.
    else if word == "end" && s.leads > 0 then s.(leads := s.leads - 1)
    else s
  }

  // What a whole word at `commandStart` changes; `rest` is the line after it.
  function NoteWord(word: string, rest: string, commandStart: bool, s: Scan): Scan {
    if word == "{" then s.(leads := Less(s.leads), blocks := s.blocks + 1)
    else if word == "}" then s.(blocks := Less(s.blocks))
    // A quote or backslash right after it makes it part of a longer word.
    else if commandStart && (rest == "" || !(IsQuote(rest[0]) || rest[0] == '\\')) then NoteKeyword(word, rest, s)
    else s
  }

  // ----- here-documents -----

  predicate IsDelimiter(c: char) {
    !IsSpace(c) && c != '\'' && c != '"' && c != '\\' && !IsOperator(c) && c != '<' && c != '>'
  }

  function BlanksAt(s: string): (n: nat)
    ensures n <= |s|
  {
    if s != "" && (s[0] == ' ' || s[0] == '\t') then 1 + BlanksAt(s[1..]) else 0
  }

  function DelimiterAt(s: string): (n: nat)
    ensures n <= |s|
  {
    if s != "" && IsDelimiter(s[0]) then 1 + DelimiterAt(s[1..]) else 0
  }

  // The word after `<<`, and how long it is with blanks and quotes.
  function WordAfter(s: string): (r: Option<(string, nat)>)
    ensures r.Some? ==> r.value.1 <= |s|
  {
    var blanks := BlanksAt(s);
    var escaped := blanks + if blanks < |s| && s[blanks] == '\\' then 1 else 0;
    var quoted := escaped < |s| && (s[escaped] == '\'' || s[escaped] == '"');
    var start := if quoted then escaped + 1 else escaped;
    var end := start + DelimiterAt(s[start..]);
    if end == start then None
    else if !quoted then Some((s[start..end], end))
    else if end < |s| && s[end] == s[escaped] then Some((s[start..end], end + 1))
    else None
  }

  // The here-document that text starting with `<<` opens, and the length of
  // what opens it. A dash strips tabs, unless it can only be the word itself.
  function HeredocAt(s: string): (r: Option<(Heredoc, nat)>)
    requires |s| >= 2
    ensures r.Some? ==> 2 <= r.value.1 <= |s|
  {
    var dashed := if |s| > 2 && s[2] == '-' then WordAfter(s[3..]) else None;
    if dashed.Some? then Some((Heredoc(dashed.value.0, true), 3 + dashed.value.1))
    else
      var plain := WordAfter(s[2..]);
      if plain.Some? then Some((Heredoc(plain.value.0, false), 2 + plain.value.1)) else None
  }

  // ----- one line -----

  datatype Scanned = Scanned(scan: Scan, continues: bool)

  function WordLength(s: string): (n: nat)
    ensures n <= |s|
    ensures s != "" && !IsBreak(s[0]) ==> n > 0
  {
    if s != "" && !IsBreak(s[0]) then 1 + WordLength(s[1..]) else 0
  }

  predicate StartsWithAt(line: string, i: nat, what: string) {
    i + |what| <= |line| && line[i..i + |what|] == what
  }

  predicate StartsComment(line: string, i: nat)
    requires i < |line|
  {
    line[i] == '#' && (i == 0 || IsSpace(line[i - 1]) || IsOperator(line[i - 1]))
  }

  function InQuote(line: string, i: nat, s: Scan): (r: (Scan, nat))
    requires i < |line| && s.quote.Some?
    ensures r.1 > i
  {
    var c, q := line[i], s.quote.value;
    if c == '\\' && q != '\'' then (s, i + 2)
    else if c == q then (s.(quote := None), i + 1)
    else (s, i + 1)
  }

  function Operator(c: char, s: Scan): Scan {
    if c == '(' then s.(parens := s.parens + 1) else if c == ')' then s.(parens := Less(s.parens)) else s
  }

  function OpenHeredoc(line: string, i: nat, s: Scan): (r: (Scan, nat))
    requires i + 2 <= |line|
    ensures i < r.1 <= |line|
  {
    var h := HeredocAt(line[i..]);
    if h.Some? then (s.(heredocs := s.heredocs + [h.value.0]), i + h.value.1) else (s, i + 2)
  }

  // Where reading goes on, or that the line is over, and whether it goes on
  // in the next because it ends in a backslash.
  datatype Step = Go(next: nat, commandStart: bool, scan: Scan) | Over(scanned: Scanned)

  // What the line holds at `i`.
  function ScanStep(line: string, i: nat, commandStart: bool, s: Scan): (r: Step)
    requires i < |line|
    ensures r.Go? ==> r.next > i
  {
    var c := line[i];
    if s.quote.Some? then
      var r := InQuote(line, i, s);
      Go(r.1, commandStart, r.0)
    else if c == '\\' then
      if i == |line| - 1 then Over(Scanned(s, true)) else Go(i + 2, false, s)
    else if IsQuote(c) then Go(i + 1, false, s.(quote := Some(c)))
    else if StartsComment(line, i) then Over(Scanned(s, false))
    else if IsOperator(c) then Go(i + 1, true, Operator(c, s))
    // Three of them pass a string and open nothing.
    else if StartsWithAt(line, i, "<<<") then Go(i + 3, commandStart, s)
    else if StartsWithAt(line, i, "<<") then
      var r := OpenHeredoc(line, i, s);
      Go(r.1, false, r.0)
    else if IsSpace(c) || c == '<' || c == '>' then Go(i + 1, commandStart, s)
    else
      var end := i + WordLength(line[i..]);
      Go(end, commandStart && line[i..end] in PREFIXES, NoteWord(line[i..end], line[end..], commandStart, s))
  }

  // Reads the line from `i` on.
  function ScanFrom(line: string, i: nat, commandStart: bool, s: Scan): Scanned
    decreases |line| - i
  {
    if i >= |line| then Scanned(s, false)
    else
      match ScanStep(line, i, commandStart, s)
      case Over(scanned) => scanned
      case Go(next, start, scan) => ScanFrom(line, next, start, scan)
  }

  // ----- the lines of a command -----

  function StripTabs(line: string): string {
    if line != "" && line[0] == '\t' then StripTabs(line[1..]) else line
  }

  // One more line: part of a here-document opened before, or to be scanned.
  function ReadLine(line: string, s: Scan): Scanned {
    if s.heredocs != [] then
      var body := s.heredocs[0];
      Scanned(if (if body.stripTabs then StripTabs(line) else line) == body.word then s.(heredocs := s.heredocs[1..])
              else s, false)
    else ScanFrom(line, 0, true, s)
  }

  predicate IsOpen(r: Scanned) {
    r.continues || r.scan != INITIAL
  }

  // How many of the lines the command goes on for.
  function CommandLength(lines: seq<string>, s: Scan): (n: nat)
    requires lines != []
    ensures 1 <= n <= |lines|
  {
    var r := ReadLine(lines[0], s);
    if !IsOpen(r) || |lines| == 1 then 1 else 1 + CommandLength(lines[1..], r.scan)
  }

  function SplitLines(text: string): (lines: seq<string>)
    ensures lines != []
    decreases |text|
  {
    if text == "" then [""]
    else if text[0] == '\r' then [""] + SplitLines(if |text| > 1 && text[1] == '\n' then text[2..] else text[1..])
    else if text[0] == '\n' then [""] + SplitLines(text[1..])
    else
      var rest := SplitLines(text[1..]);
      [[text[0]] + rest[0]] + rest[1..]
  }

  // The lines of each command; blank lines between commands are dropped.
  function Commands(lines: seq<string>): seq<seq<string>>
    decreases |lines|
  {
    if lines == [] then []
    else if IsBlank(lines[0]) then Commands(lines[1..])
    else
      var n := CommandLength(lines, INITIAL);
      [lines[..n]] + Commands(lines[n..])
  }

  function JoinEach(commands: seq<seq<string>>): (r: seq<string>)
    ensures |r| == |commands| && forall i :: 0 <= i < |r| ==> r[i] == Join(commands[i], "\n")
  {
    seq(|commands|, i requires 0 <= i < |commands| => Join(commands[i], "\n"))
  }

  function SplitShellCommands(text: string): seq<string> {
    JoinEach(Commands(SplitLines(text)))
  }
}

// The scanner as the source runs it, with its state updated in place.
module ShellScanner {
  import opened Sequences
  import opened JavaScriptText
  import opened ShellCommands
  import Spec = ShellCommands

  class ScanState {
    var quote: Option<char>
    var blocks: nat
    var leads: nat
    var parens: nat
    var heredocs: seq<Heredoc>

    function State(): Scan
      reads this
    {
      Scan(quote, blocks, leads, parens, heredocs)
    }

    constructor ()
      ensures State() == INITIAL
    {
      quote, blocks, leads, parens, heredocs := None, 0, 0, 0, [];
    }

    method NoteKeyword(word: string, rest: string)
      modifies this
      ensures State() == Spec.NoteKeyword(word, rest, old(State()))
    {
      if word in LEADS {
        leads := leads + 1;
        if word == "elif" {
          blocks := Less(blocks);
        }
      } else if (word == "then" || word == "do") && leads > 0 {
        leads := leads - 1;
        blocks := blocks + 1;
      } else if word == "case" && HasIn(rest) {
        blocks := blocks + 1;
      } else if word == "fi" || word == "done" || word == "esac" {
        blocks := Less(blocks);
      } else if word == "end" && leads > 0 {
        leads := leads - 1;
      }
    }

    method NoteWord(word: string, rest: string, commandStart: bool)
      modifies this
      ensures State() == Spec.NoteWord(word, rest, commandStart, old(State()))
    {
      var whole := rest == "" || !(IsQuote(rest[0]) || rest[0] == '\\');
      if word == "{" {
        if leads > 0 {
          leads := leads - 1;
        }
        blocks := blocks + 1;
      } else if word == "}" {
        blocks := Less(blocks);
      } else if commandStart && whole {
        NoteKeyword(word, rest);
      }
    }

    method WordEnd(line: string, start: nat) returns (i: nat)
      requires start < |line|
      ensures i == start + WordLength(line[start..])
    {
      i := start;
      while i < |line| && !IsBreak(line[i])
        invariant start <= i <= |line| && i + WordLength(line[i..]) == start + WordLength(line[start..])
      {
        assert line[i..][1..] == line[i + 1..];
        i := i + 1;
      }
    }

    // Each of the following reads what `line` holds at `i` and says where it ends.

    method ReadQuoted(line: string, i: nat) returns (next: nat)
      requires i < |line| && quote.Some?
      modifies this
      ensures (State(), next) == InQuote(line, i, old(State()))
    {
      next := i;
      if line[i] == '\\' && quote.value != '\'' {
        next := next + 1;
      } else if line[i] == quote.value {
        quote := None;
      }
      next := next + 1;
    }

    method ReadOperator(c: char)
      modifies this
      ensures State() == Operator(c, old(State()))
    {
      if c == '(' {
        parens := parens + 1;
      } else if c == ')' && parens > 0 {
        parens := parens - 1;
      }
    }

    method ReadHeredoc(line: string, i: nat) returns (next: nat)
      requires i + 2 <= |line|
      modifies this
      ensures (State(), next) == OpenHeredoc(line, i, old(State()))
    {
      var heredoc := HeredocAt(line[i..]);
      if heredoc.Some? {
        heredocs := heredocs + [heredoc.value.0];
      }
      next := i + if heredoc.Some? then heredoc.value.1 else 2;
    }

    method ReadWord(line: string, i: nat, commandStart: bool) returns (next: nat)
      requires i < |line|
      modifies this
      ensures next == i + WordLength(line[i..])
      ensures State() == Spec.NoteWord(line[i..next], line[next..], commandStart, old(State()))
    {
      next := WordEnd(line, i);
      NoteWord(line[i..next], line[next..], commandStart);
    }

    // Reads what the line holds at `i`, unless nothing on it matters any more.
    method ReadOn(line: string, i: nat, commandStart: bool)
      returns (over: bool, continues: bool, next: nat, start: bool)
      requires i < |line|
      modifies this
      ensures ScanStep(line, i, commandStart, old(State()))
           == if over then Over(Scanned(State(), continues)) else Go(next, start, State())
    {
      hide Spec.NoteWord;
      hide OpenHeredoc;
      hide InQuote;
      hide StartsComment;
      over, continues, next, start := false, false, i + 1, commandStart;
      var c := line[i];
      if quote.Some? {
        next := ReadQuoted(line, i);
        return;
      }
      if c == '\\' {
        over, continues := i == |line| - 1, i == |line| - 1;
        next, start := i + 2, false;
        return;
      }
      if IsQuote(c) {
        quote := Some(c);
        start := false;
        return;
      }
      if StartsComment(line, i) {
        over := true;
        return;
      }
      if IsOperator(c) {
        ReadOperator(c);
        start := true;
        return;
      }
      if StartsWithAt(line, i, "<<<") {
        next := i + 3;
        return;
      }
      if StartsWithAt(line, i, "<<") {
        next := ReadHeredoc(line, i);
        start := false;
        return;
      }
      if !(IsSpace(c) || c == '<' || c == '>') {
        next := ReadWord(line, i, commandStart);
        start := commandStart && line[i..next] in PREFIXES;
      }
    }

    // Scans the line into the fields; the result says whether its end is
    // escaped.
    method ScanLine(line: string) returns (continues: bool)
      modifies this
      ensures Scanned(State(), continues) == ScanFrom(line, 0, true, old(State()))
    {
      hide ScanStep;
      var commandStart, i := true, 0;
      while i < |line|
        invariant ScanFrom(line, i, commandStart, State()) == ScanFrom(line, 0, true, old(State()))
        decreases |line| - i
      {
        var over;
        over, continues, i, commandStart := ReadOn(line, i, commandStart);
        if over {
          return;
        }
      }
      return false;
    }

    // Reads one more line, of a here-document opened before or to be scanned.
    method ReadNext(line: string) returns (open: bool)
      modifies this
      ensures State() == ReadLine(line, old(State())).scan
      ensures open == IsOpen(ReadLine(line, old(State())))
    {
      var continues := false;
      if heredocs != [] {
        var body := heredocs[0];
        if (if body.stripTabs then StripTabs(line) else line) == body.word {
          heredocs := heredocs[1..];
        }
      } else {
        continues := ScanLine(line);
      }
      open := continues || quote.Some? || blocks > 0 || leads > 0 || parens > 0 || |heredocs| > 0;
    }
  }

  // The commands left to come when `current` of one were read already.
  ghost function Left(current: seq<string>, s: Scan, lines: seq<string>): seq<seq<string>> {
    if current == [] then Commands(lines)
    else if lines == [] then [current]
    else
      var n := CommandLength(lines, s);
      [current + lines[..n]] + Commands(lines[n..])
  }

  // What is left after one more line.
  ghost function LeftAfter(current: seq<string>, r: Scanned, line: string, rest: seq<string>): seq<seq<string>> {
    if IsOpen(r) then Left(current + [line], r.scan, rest) else [current + [line]] + Commands(rest)
  }

  lemma OneLineMore(current: seq<string>, lines: seq<string>, n: nat)
    requires 1 <= n <= |lines|
    ensures current + lines[..n] == current + [lines[0]] + lines[1..][..n - 1]
    ensures lines[n..] == lines[1..][n - 1..]
  {
  }

  lemma LeftIs(current: seq<string>, s: Scan, lines: seq<string>)
    requires lines != [] && (current == [] ==> s == INITIAL && !IsBlank(lines[0]))
    ensures Left(current, s, lines)
            == [current + lines[..CommandLength(lines, s)]] + Commands(lines[CommandLength(lines, s)..])
  {
    hide ReadLine;
    var n := CommandLength(lines, s);
    assert current == [] ==> current + lines[..n] == lines[..n];
  }

  lemma LeftGoesOn(current: seq<string>, s: Scan, lines: seq<string>)
    requires lines != [] && (current == [] ==> s == INITIAL && !IsBlank(lines[0]))
    ensures Left(current, s, lines) == LeftAfter(current, ReadLine(lines[0], s), lines[0], lines[1..])
  {
    hide ReadLine;
    var r, n := ReadLine(lines[0], s), CommandLength(lines, s);
    LeftIs(current, s, lines);
    OneLineMore(current, lines, n);
    if IsOpen(r) && |lines| > 1 {
      assert n - 1 == CommandLength(lines[1..], r.scan);
      LeftIs(current + [lines[0]], r.scan, lines[1..]);
    } else {
      assert n == 1 && lines[1..][..0] == [];
      assert current + [lines[0]] + [] == current + [lines[0]];
    }
  }

  lemma JoinEachFirst(command: seq<string>, rest: seq<seq<string>>)
    ensures JoinEach([command] + rest) == [Join(command, "\n")] + JoinEach(rest)
  {
  }

  lemma LeftAtFirst(text: string)
    ensures SplitShellCommands(text) == [] + JoinEach(Left([], INITIAL, SplitLines(text)))
  {
  }

  lemma BlankIsSkipped(s: Scan, lines: seq<string>)
    requires lines != [] && IsBlank(lines[0])
    ensures Left([], s, lines) == Left([], s, lines[1..])
  {
  }

  // What never closes is a command as well, the last one.
  lemma LeftAtLast(current: seq<string>, s: Scan)
    ensures JoinEach(Left(current, s, [])) == if current == [] then [] else [Join(current, "\n")]
  {
    if current != [] {
      JoinEachFirst(current, []);
      assert [current] + [] == [current];
    }
  }

  lemma ReadOneLine(done: seq<string>, current: seq<string>, s: Scan, lines: seq<string>)
    requires lines != [] && (current == [] ==> s == INITIAL && !IsBlank(lines[0]))
    ensures var r, more := ReadLine(lines[0], s), current + [lines[0]];
      && (!IsOpen(r) ==> r.scan == INITIAL)
      && done + JoinEach(Left(current, s, lines))
         == if IsOpen(r) then done + JoinEach(Left(more, r.scan, lines[1..]))
            else done + [Join(more, "\n")] + JoinEach(Left([], r.scan, lines[1..]))
  {
    hide ReadLine;
    hide CommandLength;
    hide JoinEach;
    LeftGoesOn(current, s, lines);
    if !IsOpen(ReadLine(lines[0], s)) {
      JoinEachFirst(current + [lines[0]], Commands(lines[1..]));
      Associates(done, [Join(current + [lines[0]], "\n")], JoinEach(Commands(lines[1..])));
    }
  }

  method Split(text: string) returns (commands: seq<string>)
    ensures commands == SplitShellCommands(text)
  {
    hide *;
    var state := new ScanState();
    var lines := SplitLines(text);
    var current: seq<string> := [];
    commands := [];
    LeftAtFirst(text);
    assert lines[0..] == lines;
    for k := 0 to |lines|
      invariant fresh(state)
      invariant current == [] ==> state.State() == INITIAL
      invariant SplitShellCommands(text) == commands + JoinEach(Left(current, state.State(), lines[k..]))
    {
      var line := lines[k];
      assert lines[k..][1..] == lines[k + 1..];
      if current == [] && IsBlank(line) {
        BlankIsSkipped(state.State(), lines[k..]);
        continue;
      }
      ReadOneLine(commands, current, state.State(), lines[k..]);
      current := current + [line];
      var open := state.ReadNext(line);
      if !open {
        commands := commands + [Join(current, "\n")];
        current := [];
      }
    }
    assert lines[|lines|..] == [];
    LeftAtLast(current, state.State());
    if |current| > 0 {
      commands := commands + [Join(current, "\n")];
    }
  }
}

// What splitting keeps.
module ShellCommandsProofs {
  import opened Sequences
  import opened JavaScriptText
  import opened ShellCommands

  // The lines are the commands' lines in order, with only blank lines
  // before, between and after them.
  ghost predicate OnlyBlanksBetween(lines: seq<string>, commands: seq<seq<string>>)
    decreases |lines|
  {
    if commands == [] then forall i :: 0 <= i < |lines| ==> IsBlank(lines[i])
    else if lines == [] then false
    else if IsBlank(lines[0]) then OnlyBlanksBetween(lines[1..], commands)
    else
      var n := |commands[0]|;
      0 < n <= |lines| && lines[..n] == commands[0] && OnlyBlanksBetween(lines[n..], commands[1..])
  }

  lemma BlankFirst(lines: seq<string>, commands: seq<seq<string>>)
    requires lines != [] && IsBlank(lines[0]) && OnlyBlanksBetween(lines[1..], commands)
    ensures OnlyBlanksBetween(lines, commands)
  {
    if commands == [] {
      forall i | 0 <= i < |lines| ensures IsBlank(lines[i]) {
        assert i > 0 ==> IsBlank(lines[1..][i - 1]);
      }
    }
  }

  // Only blank lines between commands are dropped; every other line is kept,
  // in order.
  lemma {:induction false} CommandsKeepTheLines(lines: seq<string>)
    ensures OnlyBlanksBetween(lines, Commands(lines))
    decreases |lines|
  {
    if lines == [] {
    } else if IsBlank(lines[0]) {
      CommandsKeepTheLines(lines[1..]);
      BlankFirst(lines, Commands(lines));
    } else {
      var n := CommandLength(lines, INITIAL);
      CommandsKeepTheLines(lines[n..]);
      assert Commands(lines)[0] == lines[..n] && Commands(lines)[1..] == Commands(lines[n..]);
    }
  }

  // ----- splitting again -----

  // The lines close the command they start, the last of them.
  ghost predicate Closes(lines: seq<string>, s: Scan)
    requires lines != []
  {
    var r := ReadLine(lines[0], s);
    if !IsOpen(r) then |lines| == 1 else |lines| > 1 && Closes(lines[1..], r.scan)
  }

  // The lines leave the command they start open, up to the last.
  ghost predicate StaysOpen(lines: seq<string>, s: Scan)
    requires lines != []
  {
    var r := ReadLine(lines[0], s);
    IsOpen(r) && (|lines| > 1 ==> StaysOpen(lines[1..], r.scan))
  }

  lemma {:induction false} CommandEnds(lines: seq<string>, s: Scan)
    requires lines != []
    ensures var n := CommandLength(lines, s); Closes(lines[..n], s) || (n == |lines| && StaysOpen(lines, s))
  {
    var r := ReadLine(lines[0], s);
    var n := CommandLength(lines, s);
    if IsOpen(r) && |lines| > 1 {
      CommandEnds(lines[1..], r.scan);
      assert lines[..n][1..] == lines[1..][..n - 1];
    }
  }

  lemma {:induction false} ClosedIsACommand(command: seq<string>, s: Scan, more: seq<string>)
    requires command != [] && (Closes(command, s) || (StaysOpen(command, s) && more == []))
    ensures CommandLength(command + more, s) == |command|
  {
    var r := ReadLine(command[0], s);
    if IsOpen(r) && |command| > 1 {
      ClosedIsACommand(command[1..], r.scan, more);
      assert (command + more)[1..] == command[1..] + more;
    }
  }

  function Flat(commands: seq<seq<string>>): seq<string> {
    if commands == [] then [] else commands[0] + Flat(commands[1..])
  }

  // Each command is one, and only the last may be left open.
  ghost predicate AreCommands(commands: seq<seq<string>>) {
    commands == [] ||
    (&& commands[0] != [] && !IsBlank(commands[0][0])
     && (Closes(commands[0], INITIAL) || (StaysOpen(commands[0], INITIAL) && |commands| == 1))
     && AreCommands(commands[1..]))
  }

  function ScanAfter(lines: seq<string>, s: Scan): Scan {
    if lines == [] then s else ScanAfter(lines[1..], ReadLine(lines[0], s).scan)
  }

  lemma {:induction false} ClosedLeavesNothingOpen(lines: seq<string>, s: Scan)
    requires lines != [] && Closes(lines, s)
    ensures ScanAfter(lines, s) == INITIAL
  {
    hide ReadLine;
    var r := ReadLine(lines[0], s);
    if IsOpen(r) {
      ClosedLeavesNothingOpen(lines[1..], r.scan);
    } else {
      assert lines[1..] == [] && ScanAfter([], r.scan) == r.scan;
    }
  }

  lemma {:induction false} OnlyTheLastStaysOpen(commands: seq<seq<string>>, i: nat)
    requires AreCommands(commands) && i + 1 < |commands|
    ensures ScanAfter(commands[i], INITIAL) == INITIAL
  {
    if i == 0 {
      ClosedLeavesNothingOpen(commands[0], INITIAL);
    } else {
      OnlyTheLastStaysOpen(commands[1..], i - 1);
    }
  }

  // Where a command ends and another begins no quote, block, parenthesis or
  // here-document is open.
  lemma NothingIsOpenBetween(text: string, i: nat)
    requires i + 1 < |Commands(SplitLines(text))|
    ensures ScanAfter(Commands(SplitLines(text))[i], INITIAL) == INITIAL
  {
    CommandsAreCommands(SplitLines(text));
    OnlyTheLastStaysOpen(Commands(SplitLines(text)), i);
  }

  lemma {:induction false} CommandsAreCommands(lines: seq<string>)
    ensures AreCommands(Commands(lines))
    decreases |lines|
  {
    if lines == [] {
    } else if IsBlank(lines[0]) {
      CommandsAreCommands(lines[1..]);
    } else {
      var n := CommandLength(lines, INITIAL);
      CommandEnds(lines, INITIAL);
      CommandsAreCommands(lines[n..]);
      assert n == |lines| ==> lines[..n] == lines && Commands(lines[n..]) == [];
      assert Commands(lines)[1..] == Commands(lines[n..]);
    }
  }

  lemma {:induction false} CommandsOfTheirLines(commands: seq<seq<string>>)
    requires AreCommands(commands)
    ensures Commands(Flat(commands)) == commands
  {
    if commands != [] {
      var first, more := commands[0], Flat(commands[1..]);
      CommandsOfTheirLines(commands[1..]);
      ClosedIsACommand(first, INITIAL, more);
      assert (first + more)[..|first|] == first && (first + more)[|first|..] == more;
      assert commands == [first] + commands[1..];
    }
  }

  // ----- lines and text -----

  predicate IsLine(line: string) {
    '\r' !in line && '\n' !in line
  }

  ghost predicate AreLines(lines: seq<string>) {
    forall line :: line in lines ==> IsLine(line)
  }

  lemma {:induction false} SplitGivesLines(text: string)
    ensures AreLines(SplitLines(text))
    decreases |text|
  {
    if text != "" {
      if text[0] == '\r' {
        SplitGivesLines(if |text| > 1 && text[1] == '\n' then text[2..] else text[1..]);
      } else {
        SplitGivesLines(text[1..]);
        var rest := SplitLines(text[1..]);
        assert rest[0] in rest;
        assert forall line :: line in rest[1..] ==> line in rest;
      }
    }
  }

  lemma {:induction false} SplitOneLine(line: string, rest: string)
    requires IsLine(line)
    ensures SplitLines(line + "\n" + rest) == [line] + SplitLines(rest)
    ensures SplitLines(line) == [line]
  {
    if line == "" {
      assert line + "\n" + rest == "\n" + rest;
      assert ("\n" + rest)[1..] == rest;
    } else {
      SplitOneLine(line[1..], rest);
      assert (line + "\n" + rest)[1..] == line[1..] + "\n" + rest;
      assert line[0] in line && [line[0]] + line[1..] == line;
      assert SplitLines(line[1..] + "\n" + rest)[1..] == SplitLines(rest);
      assert forall c :: c in line[1..] ==> c in line;
    }
  }

  // A line ends at a line feed, at a return, or at both together.
  lemma {:induction false} LineEndsAt(line: string, end: string, rest: string)
    requires IsLine(line) && (end == "\n" || end == "\r\n" || (end == "\r" && (rest == "" || rest[0] != '\n')))
    ensures SplitLines(line + end + rest) == [line] + SplitLines(rest)
  {
    var text := line + end + rest;
    if line == "" {
      assert text == end + rest;
      assert text[|end|..] == rest && text[0] == end[0];
      assert end == "\r\n" ==> text[1] == end[1];
      assert end == "\r" && |text| > 1 ==> text[1] == rest[0];
    } else {
      assert forall c :: c in line[1..] ==> c in line;
      LineEndsAt(line[1..], end, rest);
      assert text[1..] == line[1..] + end + rest && text[0] == line[0] && line[0] in line;
      assert [line[0]] + line[1..] == line;
      assert SplitLines(text[1..])[1..] == SplitLines(rest);
    }
  }

  lemma {:induction false} SplitOfJoined(lines: seq<string>)
    requires lines != [] && AreLines(lines)
    ensures SplitLines(Join(lines, "\n")) == lines
  {
    assert lines[0] in lines;
    if |lines| == 1 {
      SplitOneLine(lines[0], "");
    } else {
      assert forall line :: line in lines[1..] ==> line in lines;
      SplitOfJoined(lines[1..]);
      SplitOneLine(lines[0], Join(lines[1..], "\n"));
    }
  }

  lemma {:induction false} JoinBoth(a: seq<string>, b: seq<string>)
    requires a != [] && b != []
    ensures Join(a + b, "\n") == Join(a, "\n") + "\n" + Join(b, "\n")
  {
    if |a| == 1 {
      assert (a + b)[1..] == b;
    } else {
      JoinBoth(a[1..], b);
      assert (a + b)[1..] == a[1..] + b;
    }
  }

  lemma {:induction false} JoinOfJoined(commands: seq<seq<string>>)
    requires AreCommands(commands)
    ensures Join(JoinEach(commands), "\n") == Join(Flat(commands), "\n")
    ensures commands != [] ==> Flat(commands) != []
  {
    if commands != [] {
      JoinOfJoined(commands[1..]);
      assert JoinEach(commands)[1..] == JoinEach(commands[1..]);
      if |commands| == 1 {
        assert commands[1..] == [] && Flat(commands) == commands[0] + [] == commands[0];
      } else {
        JoinBoth(commands[0], Flat(commands[1..]));
      }
    }
  }

  lemma {:induction false} CommandsOfLines(lines: seq<string>)
    requires AreLines(lines)
    ensures AreLines(Flat(Commands(lines)))
    decreases |lines|
  {
    if lines != [] {
      var n := if IsBlank(lines[0]) then 1 else CommandLength(lines, INITIAL);
      assert forall line :: line in lines[n..] || line in lines[..n] ==> line in lines;
      CommandsOfLines(lines[n..]);
      if !IsBlank(lines[0]) {
        assert Commands(lines)[0] == lines[..n] && Commands(lines)[1..] == Commands(lines[n..]);
      }
    }
  }

  // Splitting the commands, each on its own line or lines, gives them again.
  lemma SplittingTwice(text: string)
    ensures var commands := SplitShellCommands(text); SplitShellCommands(Join(commands, "\n")) == commands
  {
    var lines := SplitLines(text);
    var commands := Commands(lines);
    SplitGivesLines(text);
    CommandsAreCommands(lines);
    JoinOfJoined(commands);
    if commands == [] {
      assert JoinEach(commands) == [] && Join([], "\n") == "" && SplitLines("") == [""];
      assert Commands([""]) == Commands([""][1..]) == [];
    } else {
      CommandsOfLines(lines);
      SplitOfJoined(Flat(commands));
      CommandsOfTheirLines(commands);
    }
  }

  lemma {:induction false} AreCommandsEach(commands: seq<seq<string>>, i: nat)
    requires AreCommands(commands) && i < |commands|
    ensures AreCommands([commands[i]])
    ensures forall line :: line in commands[i] ==> line in Flat(commands)
  {
    if i > 0 {
      AreCommandsEach(commands[1..], i - 1);
    }
  }

  // Each command is one to split as well.
  lemma EachSplitsToItself(text: string, i: nat)
    requires i < |SplitShellCommands(text)|
    ensures SplitShellCommands(SplitShellCommands(text)[i]) == [SplitShellCommands(text)[i]]
  {
    var lines := SplitLines(text);
    var commands := Commands(lines);
    SplitGivesLines(text);
    CommandsAreCommands(lines);
    CommandsOfLines(lines);
    AreCommandsEach(commands, i);
    SplitOfJoined(commands[i]);
    CommandsOfTheirLines([commands[i]]);
    assert Flat([commands[i]]) == commands[i] + Flat([]) == commands[i];
    assert JoinEach([commands[i]]) == [Join(commands[i], "\n")];
  }
}
