// What the scanner makes of a line (src/lib/shellCommands.ts): of plain text,
// quotes, backslashes and here-documents, and of the lines that open and
// close blocks.
module ShellLines {
  import opened Sequences
  import opened JavaScriptText
  import opened ShellCommands
  import opened ShellCommandsProofs

  // Words that open, move on or close a block at the start of a command.
  const KEYWORDS: set<string> := LEADS + {"then", "do", "case", "fi", "done", "esac", "end"}

  // ----- quoted text -----

  // Text between quotes: without the quote unless, but for single quotes, a
  // backslash stands before it. A backslash takes the character after it along.
  predicate IsQuoted(quote: char, text: string)
    decreases |text|
  {
    if text == "" then true
    else if text[0] == '\\' && quote != '\'' then |text| >= 2 && IsQuoted(quote, text[2..])
    else text[0] != quote && IsQuoted(quote, text[1..])
  }

  // Whatever else it holds, it changes nothing.
  lemma {:induction false} QuotedIsPassed(line: string, i: nat, text: string, start: bool, s: Scan)
    requires StartsWithAt(line, i, text) && s.quote.Some? && IsQuoted(s.quote.value, text)
    ensures ScanFrom(line, i, start, s) == ScanFrom(line, i + |text|, start, s)
    decreases |text|
  {
    if text != "" {
      assert line[i] == text[0];
      var n := if text[0] == '\\' && s.quote != Some('\'') then 2 else 1;
      assert line[i + n..i + |text|] == text[n..];
      QuotedIsPassed(line, i + n, text[n..], start, s);
    }
  }

  // Nor does it over any number of lines.
  lemma {:induction false} QuotedLinesArePassed(lines: seq<string>, s: Scan)
    requires s.quote.Some? && s.heredocs == [] && forall i :: 0 <= i < |lines| ==> IsQuoted(s.quote.value, lines[i])
    ensures ScanAfter(lines, s) == s
    ensures forall i :: 0 <= i < |lines| ==> ReadLine(lines[i], s) == Scanned(s, false)
  {
    if lines != [] {
      assert lines[0][0..|lines[0]|] == lines[0];
      QuotedIsPassed(lines[0], 0, lines[0], true, s);
      QuotedLinesArePassed(lines[1..], s);
      assert forall i :: 0 < i < |lines| ==> lines[i] == lines[1..][i - 1];
    }
  }

  // ----- backslashes at the end of a line -----

  function Backslashes(n: nat): (r: string)
    ensures |r| == n && forall i :: 0 <= i < n ==> r[i] == '\\'
  {
    seq(n, _ => '\\')
  }

  // A line goes on exactly when an odd run of them ends it.
  lemma {:induction false} BackslashesGoOn(line: string, i: nat, start: bool, s: Scan)
    requires i <= |line| && s.quote.None? && forall j :: i <= j < |line| ==> line[j] == '\\'
    ensures ScanFrom(line, i, start, s) == Scanned(s, (|line| - i) % 2 == 1)
    decreases |line| - i
  {
    if i + 1 < |line| {
      BackslashesGoOn(line, i + 2, false, s);
    }
  }

  // ----- words -----

  predicate IsWord(w: string) {
    w != "" && w[0] != '#' && forall i :: 0 <= i < |w| ==> !IsBreak(w[i])
  }

  predicate BreaksAt(line: string, i: nat) {
    i >= |line| || IsBreak(line[i])
  }

  lemma {:induction false} WordLengthIs(s: string, n: nat)
    requires n <= |s| && (forall i :: 0 <= i < n ==> !IsBreak(s[i])) && BreaksAt(s, n)
    ensures WordLength(s) == n
  {
    if n > 0 {
      WordLengthIs(s[1..], n - 1);
    }
  }

  lemma WordStep(line: string, i: nat, w: string, start: bool, s: Scan)
    requires StartsWithAt(line, i, w) && IsWord(w) && BreaksAt(line, i + |w|) && s.quote.None?
    ensures ScanStep(line, i, start, s)
         == Go(i + |w|, start && w in PREFIXES, NoteWord(w, line[i + |w|..], start, s))
  {
    hide NoteWord;
    hide OpenHeredoc;
    hide WordLength;
    hide StartsWithAt;
    FirstAt(line, i, w);
    NoOpenerAt(line, i);
    WordLengthAt(line, i, w);
  }

  lemma FirstAt(line: string, i: nat, w: string)
    requires StartsWithAt(line, i, w) && w != ""
    ensures i + |w| <= |line| && line[i..i + |w|] == w && line[i] == w[0]
  {
    assert line[i..i + |w|][0] == line[i];
  }

  lemma WordLengthAt(line: string, i: nat, w: string)
    requires StartsWithAt(line, i, w) && IsWord(w) && BreaksAt(line, i + |w|)
    ensures WordLength(line[i..]) == |w|
  {
    RestAt(line, i, w, 0);
    assert forall j :: 0 <= j < |w| ==> line[i..][j] == line[i + j];
    assert i + |w| < |line| ==> line[i..][|w|] == line[i + |w|];
    WordLengthIs(line[i..], |w|);
  }

  lemma GoesOn(line: string, i: nat, start: bool, s: Scan, next: nat, nextStart: bool, after: Scan)
    requires i < |line| && ScanStep(line, i, start, s) == Go(next, nextStart, after)
    ensures ScanFrom(line, i, start, s) == ScanFrom(line, next, nextStart, after)
  {
    hide ScanStep;
  }

  lemma WordIsRead(line: string, i: nat, w: string, start: bool, s: Scan)
    requires StartsWithAt(line, i, w) && IsWord(w) && BreaksAt(line, i + |w|) && s.quote.None?
    ensures ScanFrom(line, i, start, s)
         == ScanFrom(line, i + |w|, start && w in PREFIXES, NoteWord(w, line[i + |w|..], start, s))
  {
    hide ScanStep;
    hide NoteWord;
    WordStep(line, i, w, start, s);
    GoesOn(line, i, start, s, i + |w|, start && w in PREFIXES, NoteWord(w, line[i + |w|..], start, s));
  }

  lemma RestAt(line: string, i: nat, text: string, n: nat)
    requires StartsWithAt(line, i, text) && n <= |text|
    ensures StartsWithAt(line, i, text[..n]) && StartsWithAt(line, i + n, text[n..])
    ensures forall j :: 0 <= j < |text| ==> line[i + j] == text[j]
  {
    assert forall j :: 0 <= j < |text| ==> line[i..i + |text|][j] == text[j];
    assert line[i..i + n] == text[..n] && line[i + n..i + |text|] == text[n..];
  }

  // ----- text that opens nothing -----

  // Where quoted text ends.
  function ClosingQuote(quote: char, text: string): (r: Option<nat>)
    ensures r.Some? ==> r.value < |text| && text[r.value] == quote && IsQuoted(quote, text[..r.value])
    decreases |text|
  {
    if text == "" then None
    else if text[0] == '\\' && quote != '\'' then
      if |text| == 1 then None
      else
        match ClosingQuote(quote, text[2..])
        case None => None
        case Some(n) =>
          assert text[..n + 2][2..] == text[2..][..n];
          Some(n + 2)
    else if text[0] == quote then Some(0)
    else
      match ClosingQuote(quote, text[1..])
      case None => None
      case Some(n) =>
        assert text[..n + 1][1..] == text[1..][..n];
        Some(n + 1)
  }

  // Words that are no keywords where they stand, spaces, operators,
  // redirections, strings passed by `<<<`, escaped characters, closed quotes
  // and balanced parentheses, of which `depth` are open before. The result says whether
  // a command could start after the text; there is none for other text.
  function Passes(text: string, start: bool, depth: nat): Option<bool>
    decreases |text|
  {
    if text == "" then if depth == 0 then Some(start) else None
    else
      var c := text[0];
      if c == '\\' then if |text| == 1 then None else Passes(text[2..], false, depth)
      else if IsQuote(c) then
        match ClosingQuote(c, text[1..])
        case None => None
        case Some(n) => Passes(text[n + 2..], false, depth)
      else if c == '(' then Passes(text[1..], true, depth + 1)
      else if c == ')' then if depth == 0 then None else Passes(text[1..], true, depth - 1)
      else if IsOperator(c) then Passes(text[1..], true, depth)
      else if c == '<' then
        if |text| >= 3 && text[1] == '<' && text[2] == '<' then Passes(text[3..], start, depth)
        else if |text| == 1 || text[1] == '<' then None
        else Passes(text[1..], start, depth)
      else if IsSpace(c) || c == '>' then Passes(text[1..], start, depth)
      else if c == '#' then None
      else
        var n := WordLength(text);
        if text[..n] == "{" || text[..n] == "}" || (start && text[..n] in KEYWORDS) then None
        else Passes(text[n..], start && text[..n] in PREFIXES, depth)
  }

  predicate IsPlainText(text: string, start: bool) {
    Passes(text, start, 0).Some?
  }

  lemma {:induction false} WordOf(text: string)
    requires text != "" && !IsBreak(text[0]) && text[0] != '#'
    ensures IsWord(text[..WordLength(text)]) && BreaksAt(text, WordLength(text))
  {
    WordBreaks(text);
  }

  lemma {:induction false} WordBreaks(text: string)
    ensures forall i :: 0 <= i < WordLength(text) ==> !IsBreak(text[i])
    ensures BreaksAt(text, WordLength(text))
  {
    if text != "" && !IsBreak(text[0]) {
      WordBreaks(text[1..]);
      assert forall i :: 0 < i < |text| ==> text[i] == text[1..][i - 1];
    }
  }

  lemma NoKeywordChangesNothing(w: string, rest: string, start: bool, s: Scan)
    requires w != "{" && w != "}" && (start ==> w !in KEYWORDS)
    ensures NoteWord(w, rest, start, s) == s
  {
  }

  // Glued to a quote or a backslash, a word is no keyword; neither is `case`
  // without ` in` after it.
  lemma WordsThatAreNoKeyword(w: string, rest: string, start: bool, s: Scan)
    requires w != "{" && w != "}"
    requires || (rest != "" && (rest[0] == '\'' || rest[0] == '"' || rest[0] == '`' || rest[0] == '\\'))
             || (w == "case" && forall k: nat :: !InAt(rest, k))
    ensures NoteWord(w, rest, start, s) == s
  {
    hide InAt;
  }

  // Which characters end a word, and which the word of a here-document.
  lemma CharactersAre(c: char)
    ensures IsBreak(c) <==> IsSpace(c) || c in ";&|()<>'\"`\\"
    ensures IsDelimiter(c) <==> !IsSpace(c) && c !in ";&|()<>'\"\\"
    ensures IsOperator(c) <==> c in ";&|()"
  {
  }

  // Words that begin a block or lead on to one, and those a command may
  // follow at once.
  lemma KeywordsAre(w: string)
    ensures w in LEADS <==> w in ["if", "elif", "while", "until", "for", "select"]
    ensures w in PREFIXES <==> w in ["then", "do", "else", "elif", "if", "while", "until", "!", "time", "{"]
  {
  }

  lemma QuoteSteps(line: string, i: nat, quote: char, start: bool, s: Scan)
    requires i < |line| && line[i] == quote && IsQuote(quote)
    ensures s.quote.None? ==> ScanStep(line, i, start, s) == Go(i + 1, false, s.(quote := Some(quote)))
    ensures s.quote == Some(quote) ==> ScanStep(line, i, start, s) == Go(i + 1, start, s.(quote := None))
  {
  }

  lemma QuoteOpensAt(line: string, i: nat, quote: char, start: bool, s: Scan)
    requires i < |line| && line[i] == quote && IsQuote(quote) && s.quote.None?
    ensures ScanFrom(line, i, start, s) == ScanFrom(line, i + 1, false, s.(quote := Some(quote)))
  {
    hide ScanStep;
    QuoteSteps(line, i, quote, start, s);
    GoesOn(line, i, start, s, i + 1, false, s.(quote := Some(quote)));
  }

  lemma QuoteClosesAt(line: string, i: nat, quote: char, start: bool, s: Scan)
    requires i < |line| && line[i] == quote && IsQuote(quote) && s.quote == Some(quote)
    ensures ScanFrom(line, i, start, s) == ScanFrom(line, i + 1, start, s.(quote := None))
  {
    hide ScanStep;
    QuoteSteps(line, i, quote, start, s);
    GoesOn(line, i, start, s, i + 1, start, s.(quote := None));
  }

  lemma QuoteIsPassed(line: string, i: nat, text: string, n: nat, start: bool, s: Scan)
    requires StartsWithAt(line, i, text) && text != "" && IsQuote(text[0])
             && ClosingQuote(text[0], text[1..]) == Some(n)
    requires s.quote.None?
    ensures ScanFrom(line, i, start, s) == ScanFrom(line, i + n + 2, false, s)
  {
    hide ScanFrom;
    hide ClosingQuote;
    var quote, inside := text[0], s.(quote := Some(text[0]));
    ClosingQuoteIs(quote, text[1..], n);
    RestAt(line, i, text, 1);
    assert line[i + 0] == quote;
    QuoteOpensAt(line, i, quote, start, s);
    RestAt(line, i + 1, text[1..], n);
    QuotedIsPassed(line, i + 1, text[1..][..n], false, inside);
    assert line[i + 1 + n] == quote;
    QuoteClosesAt(line, i + 1 + n, quote, false, inside);
    assert inside.(quote := None) == s;
  }

  lemma ClosingQuoteIs(quote: char, text: string, n: nat)
    requires ClosingQuote(quote, text) == Some(n)
    ensures n < |text| && text[n] == quote && IsQuoted(quote, text[..n])
  {
  }

  // A comment may stand at the start of a line, or after a space or operator.
  predicate CommentAfter(text: string) {
    text == "" || IsSpace(text[|text| - 1]) || IsOperator(text[|text| - 1])
  }

  // No word of the text goes on in what stands after it in the line.
  predicate EndsApart(line: string, i: nat, text: string) {
    BreaksAt(line, i + |text|) || CommentAfter(text)
  }

  lemma {:induction false} PlainIsPassed(line: string, i: nat, text: string, start: bool, depth: nat, s: Scan)
    requires StartsWithAt(line, i, text) && Passes(text, start, depth).Some? && EndsApart(line, i, text)
    requires s.quote.None? && s.parens >= depth
    ensures ScanFrom(line, i, start, s)
         == ScanFrom(line, i + |text|, Passes(text, start, depth).value, s.(parens := s.parens - depth))
    decreases |text|, 1
  {
    hide ScanFrom;
    if text == "" {
      return;
    }
    hide Passes;
    var c := text[0];
    if c == '\\' {
      PlainAfterEscape(line, i, text, start, depth, s);
    } else if IsQuote(c) {
      PlainAfterQuote(line, i, text, start, depth, s);
    } else if IsOperator(c) {
      PlainAfterOperator(line, i, text, start, depth, s);
    } else if c == '<' || c == '>' || IsSpace(c) {
      PlainAfterBlank(line, i, text, start, depth, s);
    } else {
      PlainAfterWord(line, i, text, start, depth, s);
    }
  }

  lemma PlainAfterEscape(line: string, i: nat, text: string, start: bool, depth: nat, s: Scan)
    requires StartsWithAt(line, i, text) && Passes(text, start, depth).Some? && EndsApart(line, i, text)
    requires text != "" && text[0] == '\\' && s.quote.None? && s.parens >= depth
    ensures ScanFrom(line, i, start, s)
         == ScanFrom(line, i + |text|, Passes(text, start, depth).value, s.(parens := s.parens - depth))
    decreases |text|, 0
  {
    hide ScanFrom;
    RestAt(line, i, text, 2);
    assert line[i + 0] == text[0];
    EscapeIsPassed(line, i, start, s);
    PlainIsPassed(line, i + 2, text[2..], false, depth, s);
  }

  lemma PassesQuote(text: string, start: bool, depth: nat) returns (n: nat)
    requires text != "" && IsQuote(text[0]) && Passes(text, start, depth).Some?
    ensures ClosingQuote(text[0], text[1..]) == Some(n) && n + 2 <= |text|
    ensures Passes(text, start, depth) == Passes(text[n + 2..], false, depth)
  {
    n := ClosingQuote(text[0], text[1..]).value;
  }

  lemma PlainAfterQuote(line: string, i: nat, text: string, start: bool, depth: nat, s: Scan)
    requires StartsWithAt(line, i, text) && Passes(text, start, depth).Some? && EndsApart(line, i, text)
    requires text != "" && IsQuote(text[0]) && s.quote.None? && s.parens >= depth
    ensures ScanFrom(line, i, start, s)
         == ScanFrom(line, i + |text|, Passes(text, start, depth).value, s.(parens := s.parens - depth))
    decreases |text|, 0
  {
    hide *;
    var n := PassesQuote(text, start, depth);
    QuoteIsPassed(line, i, text, n, start, s);
    RestAt(line, i, text, n + 2);
    TailEndsApart(line, i, text, n + 2);
    PlainIsPassed(line, i + n + 2, text[n + 2..], false, depth, s);
  }

  lemma PlainAfterBlank(line: string, i: nat, text: string, start: bool, depth: nat, s: Scan)
    requires StartsWithAt(line, i, text) && Passes(text, start, depth).Some? && EndsApart(line, i, text)
    requires text != "" && (text[0] == '<' || text[0] == '>' || IsSpace(text[0])) && s.quote.None? && s.parens >= depth
    ensures ScanFrom(line, i, start, s)
         == ScanFrom(line, i + |text|, Passes(text, start, depth).value, s.(parens := s.parens - depth))
    decreases |text|, 0
  {
    hide *;
    FirstAt(line, i, text);
    RestAt(line, i, text, 0);
    var n := PassesBlank(text, start, depth);
    RestAt(line, i, text, n);
    TailEndsApart(line, i, text, n);
    if n == 3 {
      assert line[i + 1] == text[1] && line[i + 2] == text[2];
      ThreeArePassed(line, i, start, s);
    } else {
      assert text[0] == '<' ==> line[i + 1] == text[1];
      BlankIsPassed(line, i, start, s);
    }
    PlainIsPassed(line, i + n, text[n..], start, depth, s);
  }

  lemma PassesBlank(text: string, start: bool, depth: nat) returns (n: nat)
    requires Passes(text, start, depth).Some? && text != "" && (text[0] == '<' || text[0] == '>' || IsSpace(text[0]))
    ensures n == 1 || n == 3
    ensures n == 3 ==> |text| >= 3 && text[0] == text[1] == text[2] == '<'
    ensures n == 1 && text[0] == '<' ==> |text| > 1 && text[1] != '<'
    ensures Passes(text, start, depth) == Passes(text[n..], start, depth)
  {
    n := if |text| >= 3 && text[0] == text[1] == text[2] == '<' then 3 else 1;
  }

  lemma TailEndsApart(line: string, i: nat, text: string, n: nat)
    requires EndsApart(line, i, text) && n <= |text|
    ensures EndsApart(line, i + n, text[n..])
  {
  }

  // `<<<` opens nothing.
  lemma ThreeArePassed(line: string, i: nat, start: bool, s: Scan)
    requires i + 2 < |line| && line[i] == line[i + 1] == line[i + 2] == '<' && s.quote.None?
    ensures ScanFrom(line, i, start, s) == ScanFrom(line, i + 3, start, s)
  {
    hide ScanFrom;
    assert line[i..i + 3] == "<<<";
    assert ScanStep(line, i, start, s) == Go(i + 3, start, s);
    GoesOn(line, i, start, s, i + 3, start, s);
  }

  lemma PassesWord(text: string, start: bool, depth: nat)
    requires text != "" && !IsBreak(text[0]) && Passes(text, start, depth).Some?
    ensures var n := WordLength(text); var w := text[..n];
      && n > 0 && text[0] != '#' && w != "{" && w != "}" && (start ==> w !in KEYWORDS)
      && Passes(text, start, depth) == Passes(text[n..], start && w in PREFIXES, depth)
  {
  }

  lemma PlainAfterWord(line: string, i: nat, text: string, start: bool, depth: nat, s: Scan)
    requires StartsWithAt(line, i, text) && Passes(text, start, depth).Some? && EndsApart(line, i, text)
    requires text != "" && !IsBreak(text[0]) && s.quote.None? && s.parens >= depth
    ensures ScanFrom(line, i, start, s)
         == ScanFrom(line, i + |text|, Passes(text, start, depth).value, s.(parens := s.parens - depth))
    decreases |text|, 0
  {
    hide *;
    var n := WordLength(text);
    PassesWord(text, start, depth);
    WordIsPassed(line, i, text, start, s);
    RestAt(line, i, text, n);
    TailEndsApart(line, i, text, n);
    PlainIsPassed(line, i + n, text[n..], start && text[..n] in PREFIXES, depth, s);
  }

  lemma PlainAfterOperator(line: string, i: nat, text: string, start: bool, depth: nat, s: Scan)
    requires StartsWithAt(line, i, text) && Passes(text, start, depth).Some? && EndsApart(line, i, text)
    requires text != "" && IsOperator(text[0]) && s.quote.None? && s.parens >= depth
    ensures ScanFrom(line, i, start, s)
         == ScanFrom(line, i + |text|, Passes(text, start, depth).value, s.(parens := s.parens - depth))
    decreases |text|, 0
  {
    hide ScanFrom;
    var c := text[0];
    RestAt(line, i, text, 1);
    assert line[i + 0] == c;
    OperatorIsRead(line, i, start, s);
    var d := if c == '(' then depth + 1 else if c == ')' then depth - 1 else depth;
    var after := Operator(c, s);
    assert after.(parens := after.parens - d) == s.(parens := s.parens - depth);
    PlainIsPassed(line, i + 1, text[1..], true, d, after);
  }

  lemma WordIsPassed(line: string, i: nat, text: string, start: bool, s: Scan)
    requires StartsWithAt(line, i, text) && EndsApart(line, i, text) && s.quote.None?
    requires text != "" && !IsBreak(text[0]) && text[0] != '#'
    requires var w := text[..WordLength(text)]; w != "{" && w != "}" && (start ==> w !in KEYWORDS)
    ensures ScanFrom(line, i, start, s)
         == ScanFrom(line, i + WordLength(text), start && text[..WordLength(text)] in PREFIXES, s)
  {
    hide ScanFrom;
    var n := WordLength(text);
    WordOf(text);
    RestAt(line, i, text, n);
    assert n < |text| ==> line[i + n] == text[n];
    WordIsRead(line, i, text[..n], start, s);
    NoKeywordChangesNothing(text[..n], line[i + n..], start, s);
  }

  // The same for text with its parentheses balanced.
  lemma PlainIsSkipped(line: string, i: nat, text: string, start: bool, s: Scan)
    requires StartsWithAt(line, i, text) && IsPlainText(text, start) && EndsApart(line, i, text) && s.quote.None?
    ensures ScanFrom(line, i, start, s) == ScanFrom(line, i + |text|, Passes(text, start, 0).value, s)
  {
    hide ScanFrom;
    PlainIsPassed(line, i, text, start, 0, s);
    assert s.(parens := s.parens - 0) == s;
  }

  lemma EscapeIsPassed(line: string, i: nat, start: bool, s: Scan)
    requires i + 1 < |line| && line[i] == '\\' && s.quote.None?
    ensures ScanFrom(line, i, start, s) == ScanFrom(line, i + 2, false, s)
  {
    assert ScanStep(line, i, start, s) == Go(i + 2, false, s);
    GoesOn(line, i, start, s, i + 2, false, s);
  }

  lemma OperatorStep(line: string, i: nat, start: bool, s: Scan)
    requires i < |line| && IsOperator(line[i]) && s.quote.None?
    ensures ScanStep(line, i, start, s) == Go(i + 1, true, Operator(line[i], s))
  {
  }

  lemma OperatorIsRead(line: string, i: nat, start: bool, s: Scan)
    requires i < |line| && IsOperator(line[i]) && s.quote.None?
    ensures ScanFrom(line, i, start, s) == ScanFrom(line, i + 1, true, Operator(line[i], s))
  {
    hide ScanStep;
    OperatorStep(line, i, start, s);
    GoesOn(line, i, start, s, i + 1, true, Operator(line[i], s));
  }

  lemma NoOpenerAt(line: string, i: nat)
    requires i < |line| && (line[i] != '<' || i + 1 >= |line| || line[i + 1] != '<')
    ensures !StartsWithAt(line, i, "<<") && !StartsWithAt(line, i, "<<<")
  {
    assert i + 2 <= |line| ==> line[i..i + 2][0] == line[i] && line[i..i + 2][1] == line[i + 1];
    assert i + 3 <= |line| ==> line[i..i + 3][0] == line[i] && line[i..i + 3][1] == line[i + 1];
  }

  lemma BlankStep(line: string, i: nat, start: bool, s: Scan)
    requires i < |line| && s.quote.None?
    requires IsSpace(line[i]) || line[i] == '>' || (line[i] == '<' && i + 1 < |line| && line[i + 1] != '<')
    ensures ScanStep(line, i, start, s) == Go(i + 1, start, s)
  {
    hide OpenHeredoc;
    hide NoteWord;
    NoOpenerAt(line, i);
  }

  lemma BlankIsPassed(line: string, i: nat, start: bool, s: Scan)
    requires i < |line| && s.quote.None?
    requires IsSpace(line[i]) || line[i] == '>' || (line[i] == '<' && i + 1 < |line| && line[i + 1] != '<')
    ensures ScanFrom(line, i, start, s) == ScanFrom(line, i + 1, start, s)
  {
    hide ScanStep;
    BlankStep(line, i, start, s);
    GoesOn(line, i, start, s, i + 1, start, s);
  }

  // ----- here-documents -----

  predicate IsDelimiterWord(w: string) {
    w != "" && forall i :: 0 <= i < |w| ==> IsDelimiter(w[i])
  }

  lemma {:induction false} DelimiterLengthIs(s: string, n: nat)
    requires n <= |s| && (forall i :: 0 <= i < n ==> IsDelimiter(s[i])) && (n < |s| ==> !IsDelimiter(s[n]))
    ensures DelimiterAt(s) == n
  {
    if n > 0 {
      DelimiterLengthIs(s[1..], n - 1);
    }
  }

  // How a delimiter is written: after blanks, after a backslash, in quotes.
  datatype Form = Form(blanks: string, escaped: bool, quote: Option<char>)

  predicate IsForm(form: Form) {
    && (forall i :: 0 <= i < |form.blanks| ==> form.blanks[i] == ' ' || form.blanks[i] == '\t')
    && (form.quote.Some? ==> form.quote.value == '\'' || form.quote.value == '"')
  }

  // What opens a here-document: a dash strips tabs from its lines.
  function Opener(dashed: bool, form: Form, w: string): string {
    "<<" + (if dashed then "-" else "") + Delimiter(form, w)
  }

  function Delimiter(form: Form, w: string): string {
    Before(form) + if form.quote.Some? then [form.quote.value] + w + [form.quote.value] else w
  }

  function Before(form: Form): string {
    form.blanks + if form.escaped then "\\" else ""
  }

  predicate IsOpener(dashed: bool, form: Form, w: string) {
    IsDelimiterWord(w) && IsForm(form) && (!dashed ==> Delimiter(form, w)[..1] != "-")
  }

  lemma {:induction false} BlanksAre(blanks: string, rest: string)
    requires forall i :: 0 <= i < |blanks| ==> blanks[i] == ' ' || blanks[i] == '\t'
    requires rest != "" ==> rest[0] != ' ' && rest[0] != '\t'
    ensures BlanksAt(blanks + rest) == |blanks|
  {
    if blanks == "" {
      assert blanks + rest == rest;
    } else {
      BlanksAre(blanks[1..], rest);
      assert (blanks + rest)[1..] == blanks[1..] + rest;
    }
  }

  // What stands before the word, or before its quote.
  lemma BeforeIs(form: Form, tail: string)
    requires IsForm(form) && tail != "" && tail[0] != ' ' && tail[0] != '\t' && tail[0] != '\\'
    ensures var s, n := Before(form) + tail, |Before(form)|;
      && BlanksAt(s) == |form.blanks| < |s| && s[n..] == tail
      && n == |form.blanks| + (if s[|form.blanks|] == '\\' then 1 else 0)
  {
    var rest := (if form.escaped then "\\" else "") + tail;
    BlanksAre(form.blanks, rest);
    assert Before(form) + tail == form.blanks + rest;
    assert (form.blanks + rest)[|form.blanks|] == rest[0];
  }

  lemma TailParts(s: string, n: nat, tail: string, k: nat)
    requires n <= |s| && s[n..] == tail && 0 < k <= |tail|
    ensures s[n] == tail[0] && s[n..n + k] == tail[..k] && s[n + 1..] == tail[1..] && s[n + 1..n + k] == tail[1..k]
    ensures k < |tail| ==> s[n + k] == tail[k]
  {
    assert |s| == n + |tail| && s == s[..n] + tail;
    assert forall i :: 0 <= i < |tail| ==> s[n + i] == tail[i];
  }

  lemma BareWordAt(s: string, n: nat, tail: string, k: nat)
    requires BlanksAt(s) < |s| && n == BlanksAt(s) + (if s[BlanksAt(s)] == '\\' then 1 else 0)
    requires n <= |s| && s[n..] == tail && tail != "" && tail[0] != '\'' && tail[0] != '"'
    requires DelimiterAt(tail) == k > 0
    ensures WordAfter(s) == Some((tail[..k], n + k))
  {
    hide BlanksAt;
    hide DelimiterAt;
    TailParts(s, n, tail, k);
  }

  lemma QuotedWordAt(s: string, n: nat, tail: string, k: nat)
    requires BlanksAt(s) < |s| && n == BlanksAt(s) + (if s[BlanksAt(s)] == '\\' then 1 else 0)
    requires n <= |s| && s[n..] == tail && tail != "" && (tail[0] == '\'' || tail[0] == '"')
    requires DelimiterAt(tail[1..]) == k > 0 && 1 + k < |tail| && tail[1 + k] == tail[0]
    ensures WordAfter(s) == Some((tail[1..1 + k], n + k + 2))
  {
    hide BlanksAt;
    hide DelimiterAt;
    TailParts(s, n, tail, 1 + k);
  }

  lemma BareWordAfter(form: Form, w: string, rest: string)
    requires IsDelimiterWord(w) && IsForm(form) && form.quote.None? && (rest != "" ==> !IsDelimiter(rest[0]))
    ensures WordAfter(Delimiter(form, w) + rest) == Some((w, |Delimiter(form, w)|))
  {
    hide WordAfter;
    hide BlanksAt;
    hide DelimiterAt;
    var tail := w + rest;
    assert Delimiter(form, w) + rest == Before(form) + tail;
    assert tail[0] == w[0] && IsDelimiter(w[0]);
    assert forall i :: 0 <= i < |w| ==> tail[i] == w[i];
    DelimiterLengthIs(tail, |w|);
    BeforeIs(form, tail);
    BareWordAt(Before(form) + tail, |Before(form)|, tail, |w|);
  }

  lemma QuotedWordAfter(form: Form, w: string, rest: string)
    requires IsDelimiterWord(w) && IsForm(form) && form.quote.Some?
    ensures WordAfter(Delimiter(form, w) + rest) == Some((w, |Delimiter(form, w)|))
  {
    hide WordAfter;
    hide BlanksAt;
    hide DelimiterAt;
    var inside := w + ([form.quote.value] + rest);
    var tail := [form.quote.value] + inside;
    assert Delimiter(form, w) + rest == Before(form) + tail && tail[1..] == inside;
    assert forall i :: 0 <= i < |w| ==> inside[i] == w[i];
    assert inside[|w|] == form.quote.value;
    DelimiterLengthIs(inside, |w|);
    BeforeIs(form, tail);
    assert tail[1..1 + |w|] == w && |Delimiter(form, w)| == |Before(form)| + |w| + 2;
    QuotedWordAt(Before(form) + tail, |Before(form)|, tail, |w|);
  }

  lemma WordAfterIs(form: Form, w: string, rest: string)
    requires IsDelimiterWord(w) && IsForm(form)
    requires form.quote.None? && rest != "" ==> !IsDelimiter(rest[0])
    ensures WordAfter(Delimiter(form, w) + rest) == Some((w, |Delimiter(form, w)|))
  {
    hide WordAfter;
    hide Delimiter;
    if form.quote.Some? {
      QuotedWordAfter(form, w, rest);
    } else {
      BareWordAfter(form, w, rest);
    }
  }

  lemma HeredocWithDash(text: string, word: (string, nat))
    requires |text| >= 3 && text[2] == '-' && WordAfter(text[3..]) == Some(word)
    ensures HeredocAt(text) == Some((Heredoc(word.0, true), 3 + word.1))
  {
    hide WordAfter;
  }

  lemma HeredocWithoutDash(text: string, word: (string, nat))
    requires |text| >= 3 && text[2] != '-' && WordAfter(text[2..]) == Some(word)
    ensures HeredocAt(text) == Some((Heredoc(word.0, false), 2 + word.1))
  {
    hide WordAfter;
  }

  lemma AfterOpener(start: string, d: string, rest: string)
    ensures (start + d + rest)[|start|..] == d + rest
    ensures d != "" ==> (start + d + rest)[|start|] == d[0]
    ensures start != "" ==> (start + d + rest)[|start| - 1] == start[|start| - 1]
  {
  }

  // The word that ends the document is read as it is written, whatever follows.
  lemma OpenersAreRead(dashed: bool, form: Form, w: string, rest: string)
    requires IsOpener(dashed, form, w) && (form.quote.None? && rest != "" ==> !IsDelimiter(rest[0]))
    ensures HeredocAt(Opener(dashed, form, w) + rest) == Some((Heredoc(w, dashed), |Opener(dashed, form, w)|))
  {
    hide WordAfter;
    hide HeredocAt;
    hide IsDelimiterWord;
    WordAfterIs(form, w, rest);
    DelimiterStarts(form, w);
    hide Delimiter;
    var d, start := Delimiter(form, w), "<<" + if dashed then "-" else "";
    AfterOpener(start, d, rest);
    if dashed {
      HeredocWithDash(start + d + rest, (w, |d|));
    } else {
      HeredocWithoutDash(start + d + rest, (w, |d|));
    }
  }

  lemma DelimiterStarts(form: Form, w: string)
    requires IsDelimiterWord(w) && IsForm(form)
    ensures Delimiter(form, w) != "" && Delimiter(form, w)[0] != '<'
    ensures Delimiter(form, w)[..1] == [Delimiter(form, w)[0]]
  {
    var d := Delimiter(form, w);
    assert d[0] == if form.blanks != "" then form.blanks[0] else if form.escaped then '\\'
                   else if form.quote.Some? then form.quote.value else w[0];
  }

  // The line ends the document.
  predicate Terminates(line: string, h: Heredoc) {
    (if h.stripTabs then StripTabs(line) else line) == h.word
  }

  // Whatever its lines hold, the body of a document changes nothing but to
  // end the document at the first line that is its word.
  lemma {:induction false} BodyIsPassed(body: seq<string>, end: string, s: Scan)
    requires s.heredocs != [] && Terminates(end, s.heredocs[0])
    requires forall i :: 0 <= i < |body| ==> !Terminates(body[i], s.heredocs[0])
    ensures ScanAfter(body, s) == s && ReadLine(end, s) == Scanned(s.(heredocs := s.heredocs[1..]), false)
    ensures ScanAfter(body + [end], s) == s.(heredocs := s.heredocs[1..])
    ensures forall i :: 0 <= i < |body| ==> ReadLine(body[i], s) == Scanned(s, false)
  {
    if body == [] {
      assert body + [end] == [end];
      assert ScanAfter([end], s) == ScanAfter([], ReadLine(end, s).scan);
    } else {
      BodyIsPassed(body[1..], end, s);
      assert (body + [end])[1..] == body[1..] + [end];
      assert forall i :: 0 < i < |body| ==> body[i] == body[1..][i - 1];
    }
  }

  lemma {:induction false} TabsAreStripped(tabs: string, w: string)
    requires IsDelimiterWord(w) && forall i :: 0 <= i < |tabs| ==> tabs[i] == '\t'
    ensures StripTabs(tabs + w) == w
  {
    if tabs == "" {
      assert tabs + w == w;
    } else {
      TabsAreStripped(tabs[1..], w);
      assert (tabs + w)[1..] == tabs[1..] + w;
    }
  }

  // ----- single lines -----

  function Head(lead: string, condition: string, opener: string): string {
    lead + " " + condition + "; " + opener
  }

  // PowerShell's `if (…) {`.
  function LedHead(lead: string, condition: string): string {
    lead + " " + condition + " {"
  }

  function CaseHead(subject: string): string {
    "case " + subject + " in"
  }

  function ArmLine(paired: bool, pattern: string, text: string): string {
    (if paired then "(" else "") + pattern + ")" + text
  }

  // No quote, document or unfinished `if` or the like is open; blocks and
  // parentheses may be.
  predicate Ground(s: Scan) {
    s.quote.None? && s.heredocs == [] && s.leads == 0
  }

  lemma LineIsOver(line: string, i: nat, start: bool, s: Scan)
    requires i == |line|
    ensures ScanFrom(line, i, start, s) == Scanned(s, false)
  {
  }

  // A line of plain text, with a comment after it or not.
  predicate IsPlainLine(text: string, start: bool) {
    || IsPlainText(text, start)
    || exists n :: 0 <= n < |text| && text[n] == '#' && CommentAfter(text[..n]) && IsPlainText(text[..n], start)
  }

  // The rest of a line is a comment, whatever it holds.
  lemma CommentIsOver(line: string, i: nat, start: bool, s: Scan)
    requires i < |line| && line[i] == '#' && CommentAfter(line[..i]) && s.quote.None?
    ensures ScanFrom(line, i, start, s) == Scanned(s, false)
  {
    hide OpenHeredoc;
    hide NoteWord;
    assert i > 0 ==> line[..i][i - 1] == line[i - 1];
  }

  lemma PlainLine(text: string, start: bool, s: Scan)
    requires IsPlainLine(text, start) && s.quote.None?
    ensures ScanFrom(text, 0, start, s) == Scanned(s, false)
  {
    if IsPlainText(text, start) {
      hide ScanFrom;
      hide Passes;
      assert text[0..|text|] == text;
      PlainIsSkipped(text, 0, text, start, s);
      LineIsOver(text, |text|, Passes(text, start, 0).value, s);
    } else {
      var n :| 0 <= n < |text| && text[n] == '#' && CommentAfter(text[..n]) && IsPlainText(text[..n], start);
      CommentIsPassed(text, n, start, s);
    }
  }

  // Plain text with a comment after it reads as the plain text alone.
  lemma CommentIsPassed(text: string, n: nat, start: bool, s: Scan)
    requires n < |text| && text[n] == '#' && CommentAfter(text[..n]) && IsPlainText(text[..n], start) && s.quote.None?
    ensures ScanFrom(text, 0, start, s) == ScanFrom(text[..n], 0, start, s) == Scanned(s, false)
  {
    hide ScanFrom;
    hide Passes;
    var plain := text[..n];
    assert plain[0..n] == plain && text[0..n] == plain;
    PlainIsSkipped(plain, 0, plain, start, s);
    LineIsOver(plain, n, Passes(plain, start, 0).value, s);
    PlainIsSkipped(text, 0, plain, start, s);
    CommentIsOver(text, n, Passes(plain, start, 0).value, s);
  }

  // Plain text and then backslashes: the line goes on when they are odd.
  lemma PlainThenBackslashes(text: string, n: nat, s: Scan)
    requires IsPlainText(text, true) && s.quote.None?
    ensures ScanFrom(text + Backslashes(n), 0, true, s) == Scanned(s, n % 2 == 1)
  {
    hide ScanFrom;
    hide Passes;
    var line := text + Backslashes(n);
    assert line[0..|text|] == text;
    PlainIsSkipped(line, 0, text, true, s);
    BackslashesGoOn(line, |text|, Passes(text, true, 0).value, s);
  }

  lemma QuoteOpens(before: string, quote: char, first: string, s: Scan)
    requires IsPlainText(before, true) && IsQuote(quote) && IsQuoted(quote, first) && s.quote.None?
    ensures ScanFrom(before + [quote] + first, 0, true, s) == Scanned(s.(quote := Some(quote)), false)
  {
    hide ScanFrom;
    hide Passes;
    var line := before + [quote] + first;
    assert line[0..|before|] == before && line[|before|] == quote && line[|before| + 1..|line|] == first;
    PlainIsSkipped(line, 0, before, true, s);
    QuoteOpensAt(line, |before|, quote, Passes(before, true, 0).value, s);
    QuotedIsPassed(line, |before| + 1, first, false, s.(quote := Some(quote)));
    LineIsOver(line, |line|, false, s.(quote := Some(quote)));
  }

  lemma QuoteCloses(last: string, quote: char, after: string, s: Scan)
    requires IsQuote(quote) && IsQuoted(quote, last) && IsPlainText(after, true) && s.quote == Some(quote)
    ensures ScanFrom(last + [quote] + after, 0, true, s) == Scanned(s.(quote := None), false)
  {
    hide ScanFrom;
    hide Passes;
    var line := last + [quote] + after;
    assert line[0..|last|] == last && line[|last|] == quote && line[|last| + 1..|line|] == after;
    QuotedIsPassed(line, 0, last, true, s);
    QuoteClosesAt(line, |last|, quote, true, s);
    PlainIsSkipped(line, |last| + 1, after, true, s.(quote := None));
    LineIsOver(line, |line|, Passes(after, true, 0).value, s.(quote := None));
  }

  lemma DocumentOpens(before: string, dashed: bool, form: Form, word: string, after: string, s: Scan)
    requires IsPlainText(before, true) && IsPlainText(after, false) && (after != "" ==> after[0] == ' ')
    requires IsOpener(dashed, form, word) && s.quote.None?
    ensures ScanFrom(before + " " + Opener(dashed, form, word) + after, 0, true, s)
         == Scanned(s.(heredocs := s.heredocs + [Heredoc(word, dashed)]), false)
  {
    hide ScanFrom;
    hide HeredocAt;
    hide Passes;
    OpenerStarts(dashed, form, word);
    OpenersAreRead(dashed, form, word, after);
    hide Opener;
    hide IsOpener;
    hide StartsWithAt;
    var opener := Opener(dashed, form, word);
    DocumentParts(before, opener, after);
    DocumentLineIsRead(before + " " + opener + after, before, opener, after, Heredoc(word, dashed), s);
  }

  lemma DocumentLineIsRead(line: string, before: string, opener: string, after: string, h: Heredoc, s: Scan)
    requires StartsWithAt(line, 0, before) && |before| < |line| && line[|before|] == ' '
    requires var i := |before| + 1;
      line[i..] == opener + after && StartsWithAt(line, i + |opener|, after) && i + |opener| + |after| == |line|
    requires |opener| >= 3 && opener[..2] == "<<" && opener[2] != '<'
    requires HeredocAt(opener + after) == Some((h, |opener|))
    requires IsPlainText(before, true) && IsPlainText(after, false) && (after != "" ==> after[0] == ' ')
    requires s.quote.None?
    ensures ScanFrom(line, 0, true, s) == Scanned(s.(heredocs := s.heredocs + [h]), false)
  {
    hide ScanFrom;
    hide HeredocAt;
    hide Passes;
    hide StartsWithAt;
    var i, start, within := |before| + 1, Passes(before, true, 0).value, s.(heredocs := s.heredocs + [h]);
    PlainIsSkipped(line, 0, before, true, s);
    BlankIsPassed(line, |before|, start, s);
    OpenerIsRead(line, i, start, s, opener, after, h);
    PlainIsSkipped(line, i + |opener|, after, false, within);
    LineIsOver(line, |line|, Passes(after, false, 0).value, within);
  }

  lemma DocumentParts(before: string, opener: string, after: string)
    ensures var line, i := before + " " + opener + after, |before| + 1;
      && StartsWithAt(line, 0, before) && i <= |line| && line[|before|] == ' '
      && line[i..] == opener + after && StartsWithAt(line, i + |opener|, after) && i + |opener| + |after| == |line|
  {
    var line, i := before + " " + opener + after, |before| + 1;
    assert line[0..|before|] == before && line[i + |opener|..|line|] == after;
  }

  lemma OpenerStarts(dashed: bool, form: Form, word: string)
    requires IsOpener(dashed, form, word)
    ensures var opener := Opener(dashed, form, word); |opener| >= 3 && opener[..2] == "<<" && opener[2] != '<'
  {
  }

  lemma OpenerStep(line: string, i: nat, start: bool, s: Scan, opener: string, after: string, h: Heredoc)
    requires i <= |line| && line[i..] == opener + after && s.quote.None?
    requires |opener| >= 3 && opener[..2] == "<<" && opener[2] != '<'
    requires HeredocAt(opener + after) == Some((h, |opener|))
    ensures i < |line|
    ensures ScanStep(line, i, start, s) == Go(i + |opener|, false, s.(heredocs := s.heredocs + [h]))
  {
    hide HeredocAt;
    hide NoteWord;
    assert opener[0] == opener[..2][0] == '<' && opener[1] == opener[..2][1] == '<';
    assert line[i] == line[i..][0] && line[i + 1] == line[i..][1] && line[i + 2] == line[i..][2];
    assert line[i..i + 2] == "<<";
    assert line[i..i + 3][2] == opener[2];
  }

  lemma OpenerIsRead(line: string, i: nat, start: bool, s: Scan, opener: string, after: string, h: Heredoc)
    requires i <= |line| && line[i..] == opener + after && s.quote.None?
    requires |opener| >= 3 && opener[..2] == "<<" && opener[2] != '<'
    requires HeredocAt(opener + after) == Some((h, |opener|))
    ensures ScanFrom(line, i, start, s) == ScanFrom(line, i + |opener|, false, s.(heredocs := s.heredocs + [h]))
  {
    hide ScanStep;
    hide HeredocAt;
    OpenerStep(line, i, start, s, opener, after, h);
    GoesOn(line, i, start, s, i + |opener|, false, s.(heredocs := s.heredocs + [h]));
  }

  // Where the parts of a head stand on its line.
  lemma HeadParts(lead: string, condition: string, opener: string)
    ensures var line, a, b := Head(lead, condition, opener), |lead|, |lead| + 1 + |condition|;
      && StartsWithAt(line, 0, lead) && a < |line| && line[a] == ' ' && StartsWithAt(line, a + 1, condition)
      && b + 1 < |line| && line[b] == ';' && line[b + 1] == ' '
      && StartsWithAt(line, b + 2, opener) && b + 2 + |opener| == |line|
      && line[a..] != "" && line[a..][0] == ' '
  {
    var line, a, b := Head(lead, condition, opener), |lead|, |lead| + 1 + |condition|;
    assert line == lead + (" " + condition + "; " + opener);
    assert line[0..a] == lead && line[a + 1..b] == condition && line[b + 2..|line|] == opener;
  }

  lemma LeadNoted(lead: string, rest: string, s: Scan)
    requires lead in LEADS && rest != "" && rest[0] == ' '
    ensures IsWord(lead)
    ensures NoteWord(lead, rest, true, s)
         == s.(leads := s.leads + 1, blocks := if lead == "elif" then Less(s.blocks) else s.blocks)
  {
  }

  lemma OpenerNoted(opener: string, s: Scan)
    requires opener in {"then", "do"} && s.leads > 0
    ensures IsWord(opener) && NoteWord(opener, "", true, s) == s.(leads := s.leads - 1, blocks := s.blocks + 1)
  {
  }

  // A head such as `if …; then` opens a block; `elif …; then` ends one and
  // opens the next.
  lemma HeadOpens(lead: string, condition: string, opener: string, s: Scan)
    requires lead in LEADS && opener in {"then", "do"} && IsPlainText(condition, lead in PREFIXES) && Ground(s)
    ensures ScanFrom(Head(lead, condition, opener), 0, true, s)
         == Scanned(s.(blocks := (if lead == "elif" then Less(s.blocks) else s.blocks) + 1), false)
  {
    hide ScanFrom;
    hide NoteWord;
    hide Passes;
    HeadParts(lead, condition, opener);
    hide Head;
    var line, a, b := Head(lead, condition, opener), |lead|, |lead| + 1 + |condition|;
    LeadNoted(lead, line[a..], s);
    var led := NoteWord(lead, line[a..], true, s);
    WordIsRead(line, 0, lead, true, s);
    BlankIsPassed(line, a, lead in PREFIXES, led);
    PlainIsSkipped(line, a + 1, condition, lead in PREFIXES, led);
    OperatorIsRead(line, b, Passes(condition, lead in PREFIXES, 0).value, led);
    BlankIsPassed(line, b + 1, true, led);
    OpenerNoted(opener, led);
    WordIsRead(line, b + 2, opener, true, led);
    assert line[|line|..] == "";
    LineIsOver(line, |line|, opener in PREFIXES, NoteWord(opener, "", true, led));
  }

  lemma LeadParts(lead: string, condition: string)
    ensures var line, a := lead + " " + condition, |lead|;
      && line[0..a] == lead && a < |line| && line[a] == ' ' && line[a + 1..|line|] == condition
      && line[a..] != "" && line[a..][0] == ' '
  {
    var line, a := lead + " " + condition, |lead|;
    assert line == lead + (" " + condition);
  }

  // Without its opener the head still waits for it, or for fish's `end`.
  lemma LeadWaits(lead: string, condition: string, s: Scan)
    requires lead in LEADS && lead != "elif" && IsPlainText(condition, lead in PREFIXES) && Ground(s)
    ensures ScanFrom(lead + " " + condition, 0, true, s) == Scanned(s.(leads := s.leads + 1), false)
  {
    hide ScanFrom;
    hide NoteWord;
    hide Passes;
    var line, a := lead + " " + condition, |lead|;
    LeadParts(lead, condition);
    LeadNoted(lead, line[a..], s);
    var led := s.(leads := s.leads + 1);
    WordIsRead(line, 0, lead, true, s);
    BlankIsPassed(line, a, lead in PREFIXES, led);
    PlainIsSkipped(line, a + 1, condition, lead in PREFIXES, led);
    LineIsOver(line, |line|, Passes(condition, lead in PREFIXES, 0).value, led);
  }

  lemma LedParts(lead: string, condition: string)
    ensures var line, a, b := LedHead(lead, condition), |lead|, |lead| + 1 + |condition|;
      && StartsWithAt(line, 0, lead) && a < |line| && line[a] == ' ' && StartsWithAt(line, a + 1, condition)
      && b + 2 == |line| && line[b] == ' ' && StartsWithAt(line, b + 1, "{") && line[a..] != "" && line[a..][0] == ' '
  {
    var line, a, b := LedHead(lead, condition), |lead|, |lead| + 1 + |condition|;
    assert line == lead + (" " + condition + " {");
    assert line[0..a] == lead && line[a + 1..b] == condition && line[b + 1..b + 2] == "{";
  }

  lemma LedBraceNoted(start: bool, s: Scan)
    requires s.leads > 0
    ensures IsWord("{") && NoteWord("{", "", start, s) == s.(leads := s.leads - 1, blocks := s.blocks + 1)
  {
  }

  lemma LedOpens(lead: string, condition: string, s: Scan)
    requires lead in LEADS && lead != "elif" && IsPlainText(condition, lead in PREFIXES) && Ground(s)
    ensures ScanFrom(LedHead(lead, condition), 0, true, s) == Scanned(s.(blocks := s.blocks + 1), false)
  {
    hide ScanFrom;
    hide NoteWord;
    hide Passes;
    LedParts(lead, condition);
    hide LedHead;
    var line, a, b := LedHead(lead, condition), |lead|, |lead| + 1 + |condition|;
    LeadNoted(lead, line[a..], s);
    var led := s.(leads := s.leads + 1);
    WordIsRead(line, 0, lead, true, s);
    BlankIsPassed(line, a, lead in PREFIXES, led);
    PlainIsSkipped(line, a + 1, condition, lead in PREFIXES, led);
    var start := Passes(condition, lead in PREFIXES, 0).value;
    BlankIsPassed(line, b, start, led);
    LedBraceNoted(start, led);
    assert line[b + 2..] == "";
    WordIsRead(line, b + 1, "{", start, led);
    LineIsOver(line, b + 2, start && "{" in PREFIXES, s.(blocks := s.blocks + 1));
  }

  lemma EndNoted(s: Scan)
    requires s.leads > 0
    ensures IsWord("end") && NoteWord("end", "", true, s) == s.(leads := s.leads - 1)
  {
  }

  // A word alone on its line.
  lemma WordAlone(w: string, s: Scan)
    requires IsWord(w) && s.quote.None?
    ensures ScanFrom(w, 0, true, s) == Scanned(NoteWord(w, "", true, s), false)
  {
    hide ScanFrom;
    hide NoteWord;
    assert w[0..|w|] == w && w[|w|..] == "";
    WordIsRead(w, 0, w, true, s);
    LineIsOver(w, |w|, w in PREFIXES, NoteWord(w, "", true, s));
  }

  lemma CloserNoted(closer: string, s: Scan)
    requires closer in {"fi", "done", "esac", "}"} && Ground(s)
    ensures IsWord(closer) && NoteWord(closer, "", true, s) == s.(blocks := Less(s.blocks))
  {
  }

  lemma CloserCloses(closer: string, s: Scan)
    requires closer in {"fi", "done", "esac", "}"} && Ground(s)
    ensures ScanFrom(closer, 0, true, s) == Scanned(s.(blocks := Less(s.blocks)), false)
  {
    hide ScanFrom;
    hide NoteWord;
    CloserNoted(closer, s);
    WordAlone(closer, s);
  }

  lemma CaseParts(subject: string)
    ensures var line, b := CaseHead(subject), 5 + |subject|;
      && StartsWithAt(line, 0, "case") && 5 <= |line| && line[4] == ' ' && StartsWithAt(line, 5, subject)
      && b + 3 == |line| && line[b] == ' ' && StartsWithAt(line, b + 1, "in")
      && line[4..] != "" && line[4..][0] == ' ' && HasIn(line[4..])
  {
    var line, b := CaseHead(subject), 5 + |subject|;
    assert line[0..4] == "case" && line[5..b] == subject && line[b + 1..b + 3] == "in";
    var rest := line[4..];
    assert rest[b - 4] == ' ' && rest[b - 3] == 'i' && rest[b - 2] == 'n' && b - 4 + 3 == |rest|;
    assert InAt(rest, b - 4);
  }

  lemma CaseNoted(rest: string, s: Scan)
    requires rest != "" && rest[0] == ' ' && HasIn(rest)
    ensures IsWord("case") && NoteWord("case", rest, true, s) == s.(blocks := s.blocks + 1)
  {
  }

  lemma InNoted(start: bool, s: Scan)
    ensures IsWord("in") && NoteWord("in", "", start, s) == s
  {
  }

  lemma CaseOpens(subject: string, s: Scan)
    requires IsPlainText(subject, false) && Ground(s)
    ensures ScanFrom(CaseHead(subject), 0, true, s) == Scanned(s.(blocks := s.blocks + 1), false)
  {
    hide ScanFrom;
    hide NoteWord;
    hide Passes;
    CaseParts(subject);
    hide CaseHead;
    hide HasIn;
    var line, b, within := CaseHead(subject), 5 + |subject|, s.(blocks := s.blocks + 1);
    CaseNoted(line[4..], s);
    WordIsRead(line, 0, "case", true, s);
    BlankIsPassed(line, 4, false, within);
    PlainIsSkipped(line, 5, subject, false, within);
    var start := Passes(subject, false, 0).value;
    BlankIsPassed(line, b, start, within);
    InNoted(start, within);
    assert line[b + 3..] == "";
    WordIsRead(line, b + 1, "in", start, within);
    LineIsOver(line, b + 3, start && "in" in PREFIXES, within);
  }

  // A pattern's parenthesis closes one that is open, if any is, and no other.
  lemma ArmIsRead(paired: bool, pattern: string, text: string, s: Scan)
    requires IsPlainText(pattern, true) && IsPlainText(text, true) && Ground(s)
    ensures ScanFrom(ArmLine(paired, pattern, text), 0, true, s)
         == Scanned(if paired then s else s.(parens := Less(s.parens)), false)
  {
    hide ScanFrom;
    hide Passes;
    var line, from := ArmLine(paired, pattern, text), if paired then 1 else 0;
    var inside, end := if paired then s.(parens := s.parens + 1) else s, from + |pattern|;
    assert line[from..end] == pattern && line[end] == ')' && line[end + 1..|line|] == text;
    if paired {
      OperatorIsRead(line, 0, true, s);
    }
    PlainIsSkipped(line, from, pattern, true, inside);
    OperatorIsRead(line, end, Passes(pattern, true, 0).value, inside);
    var after := inside.(parens := Less(inside.parens));
    PlainIsSkipped(line, end + 1, text, true, after);
    LineIsOver(line, |line|, Passes(text, true, 0).value, after);
  }

  lemma BraceNoted(start: bool, s: Scan)
    requires Ground(s)
    ensures IsWord("{") && NoteWord("{", "", start, s) == s.(blocks := s.blocks + 1)
  {
  }

  lemma BraceOpens(before: string, s: Scan)
    requires IsPlainText(before, true) && Ground(s)
    ensures ScanFrom(before + " {", 0, true, s) == Scanned(s.(blocks := s.blocks + 1), false)
  {
    hide ScanFrom;
    hide NoteWord;
    hide Passes;
    var line, i := before + " {", |before|;
    assert line[0..i] == before && line[i] == ' ' && line[i + 1..i + 2] == "{" && line[i + 2..] == "";
    PlainIsSkipped(line, 0, before, true, s);
    var start := Passes(before, true, 0).value;
    BlankIsPassed(line, i, start, s);
    BraceNoted(start, s);
    WordIsRead(line, i + 1, "{", start, s);
    LineIsOver(line, i + 2, start && "{" in PREFIXES, s.(blocks := s.blocks + 1));
  }

  lemma ParenOpens(before: string, s: Scan)
    requires IsPlainText(before, true) && Ground(s)
    ensures ScanFrom(before + " (", 0, true, s) == Scanned(s.(parens := s.parens + 1), false)
  {
    hide ScanFrom;
    hide Passes;
    var line, i := before + " (", |before|;
    assert line[0..i] == before && line[i] == ' ' && line[i + 1] == '(';
    PlainIsSkipped(line, 0, before, true, s);
    BlankIsPassed(line, i, Passes(before, true, 0).value, s);
    OperatorIsRead(line, i + 1, Passes(before, true, 0).value, s);
    LineIsOver(line, i + 2, true, s.(parens := s.parens + 1));
  }

  lemma ParenCloses(s: Scan)
    requires Ground(s)
    ensures ScanFrom(")", 0, true, s) == Scanned(s.(parens := Less(s.parens)), false)
  {
    hide ScanFrom;
    OperatorIsRead(")", 0, true, s);
    LineIsOver(")", 1, true, s.(parens := Less(s.parens)));
  }
}
