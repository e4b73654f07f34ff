// How the keys that edit a command line go together, and when it is given
// (src/lib/terminalCommandCapture.ts).
module CaptureLaws {
  import opened Sequences
  import opened JavaScriptText
  import opened CommandCapture

  // ----- one key, one escape sequence -----

  // What stands on both sides of the cursor.
  function TextOf(e: Editor): string {
    e.before + e.after
  }

  predicate Differ(a: string, b: string) {
    exists k :: 0 <= k < |a| && k < |b| && a[k] != b[k]
  }

  lemma DifferAt(a: string, b: string, k: nat)
    requires k < |a| && k < |b| && a[k] != b[k]
    ensures Differ(a, b)
  {
  }

  // No escape sequence starts another one.
  lemma SequencesDiffer(i: nat, j: nat)
    requires i < |SEQUENCES| && j < |SEQUENCES| && i != j
    ensures Differ(SEQUENCES[i], SEQUENCES[j])
  {
    var a, b := SEQUENCES[i], SEQUENCES[j];
    if a[2] != b[2] {
      DifferAt(a, b, 2);
    } else {
      assert {i, j} == {0, 1};
      DifferAt(a, b, 4);
    }
  }

  lemma SequenceIsRead(q: string, rest: string)
    requires q in SEQUENCES
    ensures SequenceAt(q + rest) == Some(q) && |q| >= 3
  {
    SequencesAreLonger();
    var i :| 0 <= i < |SEQUENCES| && SEQUENCES[i] == q;
    assert q <= q + rest;
    var found := SequenceAt(q + rest).value;
    var j :| 0 <= j < |SEQUENCES| && SEQUENCES[j] == found;
    if i != j {
      SequencesDiffer(i, j);
      StartsAsOne(q, found, q + rest);
    }
  }

  lemma StartsAsOne(a: string, b: string, data: string)
    requires Differ(a, b) && a <= data
    ensures !(b <= data)
  {
    var k :| 0 <= k < |a| && k < |b| && a[k] != b[k];
    assert a[k] == data[..|a|][k];
  }

  lemma FeedSequence(e: Editor, q: string, rest: string)
    requires q in SEQUENCES
    ensures Feed(e, q + rest) == Feed(Press(e, q), rest)
  {
    SequenceIsRead(q, rest);
    hide SequenceAt;
    hide Press;
    OneRound(e, q + rest);
    hide First;
    assert (q + rest)[|q|..] == rest;
    assert [] + Feed(Press(e, q), rest).commands == Feed(Press(e, q), rest).commands;
  }

  lemma FeedKey(e: Editor, c: char, rest: string)
    requires c != ESC
    ensures var key := Key(e, c);
      Feed(e, [c] + rest) == Fed(Feed(key.editor, rest).editor, key.commands + Feed(key.editor, rest).commands)
  {
    NoSequence([c] + rest);
    hide SequenceAt;
    hide Key;
    OneRound(e, [c] + rest);
    hide First;
    assert ([c] + rest)[1..] == rest;
  }

  lemma FeedNothing(e: Editor)
    ensures Feed(e, "") == Fed(e, [])
  {
  }

  lemma FeedOneSequence(e: Editor, q: string)
    requires q in SEQUENCES
    ensures Feed(e, q) == Fed(Press(e, q), [])
  {
    hide Press;
    hide First;
    FeedSequence(e, q, "");
    assert q + "" == q;
  }

  lemma FeedTwoSequences(e: Editor, a: string, b: string)
    requires a in SEQUENCES && b in SEQUENCES
    ensures Feed(e, a + b) == Fed(Press(Press(e, a), b), [])
  {
    hide Press;
    hide Feed;
    FeedSequence(e, a, b);
    FeedOneSequence(Press(e, a), b);
  }

  lemma FeedOneKey(e: Editor, c: char)
    requires c != ESC
    ensures Feed(e, [c]) == Key(e, c)
  {
    hide Key;
    hide First;
    FeedKey(e, c, "");
    assert [c] + "" == [c];
    assert Key(e, c).commands + [] == Key(e, c).commands;
  }

  lemma Moves(e: Editor)
    ensures LEFT in SEQUENCES && RIGHT in SEQUENCES
    ensures Press(e, LEFT)
         == if e.before == "" then e
            else e.(before := e.before[..|e.before| - 1], after := [e.before[|e.before| - 1]] + e.after)
    ensures Press(e, RIGHT)
         == if e.after == "" then e else e.(before := e.before + [e.after[0]], after := e.after[1..])
  {
    assert SEQUENCES[7] == LEFT && SEQUENCES[8] == RIGHT && LEFT[2] == 'D' && RIGHT[2] == 'C';
  }

  lemma MovesHome(e: Editor, home: string)
    requires home == HOME || home == HOME_1
    ensures home in SEQUENCES && Press(e, home) == e.(before := "", after := TextOf(e))
  {
    assert SEQUENCES[2] == HOME_1 && SEQUENCES[5] == HOME && HOME[2] == 'H' && HOME_1[2] == '1';
  }

  lemma MovesToTheEnd(e: Editor, end: string)
    requires end == END || end == END_4
    ensures end in SEQUENCES && Press(e, end) == e.(before := TextOf(e), after := "")
  {
    assert SEQUENCES[3] == END_4 && SEQUENCES[6] == END && END[2] == 'F' && END_4[2] == '4';
  }

  lemma DeleteTakesTheNext(e: Editor)
    ensures DELETE in SEQUENCES && Press(e, DELETE) == if e.after == "" then e else e.(after := e.after[1..])
  {
    assert SEQUENCES[4] == DELETE && DELETE[2] == '3';
  }

  lemma Recalls(e: Editor, q: string)
    requires q == UP || q == DOWN
    ensures q in SEQUENCES && Press(e, q) == Editor("", "", e.bracketed, false)
  {
    assert SEQUENCES[9] == UP && SEQUENCES[10] == DOWN && UP[2] == 'A' && DOWN[2] == 'B';
  }

  lemma Pastes(e: Editor)
    ensures Press(e, PASTE_START) == e.(bracketed := true) && Press(e, PASTE_END) == e.(bracketed := false)
    ensures PASTE_START in SEQUENCES && PASTE_END in SEQUENCES
  {
    assert PASTE_START[4] == '0' && PASTE_END[4] == '1';
    assert SEQUENCES[0] == PASTE_START && SEQUENCES[1] == PASTE_END;
  }

  lemma EditKeys(e: Editor, c: char)
    requires c == '\U{7f}' || c == '\U{8}' || c == '\U{15}' || c == '\U{3}' || c == '\t'
    ensures c != ESC
    ensures Key(e, c)
         == if c == '\t' then Fed(e.(valid := false), [])
            else if c == '\U{15}' || c == '\U{3}' then Fed(Editor("", "", e.bracketed, true), [])
            else Fed(if e.before == "" then e else e.(before := e.before[..|e.before| - 1]), [])
  {
  }

  lemma PlainKey(e: Editor, c: char)
    requires IsPlain(e.bracketed, c)
    ensures c != ESC && Key(e, c) == Fed(e.(before := e.before + [if c == '\r' then '\n' else c]), [])
  {
  }

  // ----- moving -----

  // Left and then right leaves the cursor where it was, as does right and
  // then left, unless the first of them had nowhere to go.
  lemma LeftUndoesRight(e: Editor)
    ensures e.before != "" ==> Feed(e, LEFT + RIGHT) == Fed(e, [])
    ensures e.after != "" ==> Feed(e, RIGHT + LEFT) == Fed(e, [])
    ensures e.before == "" ==> Feed(e, LEFT) == Fed(e, [])
    ensures e.after == "" ==> Feed(e, RIGHT) == Fed(e, [])
  {
    hide *;
    Moves(e);
    Moves(Press(e, LEFT));
    Moves(Press(e, RIGHT));
    FeedTwoSequences(e, LEFT, RIGHT);
    FeedTwoSequences(e, RIGHT, LEFT);
    FeedOneSequence(e, LEFT);
    FeedOneSequence(e, RIGHT);
    assert e.before != "" ==> e.before[..|e.before| - 1] + [e.before[|e.before| - 1]] == e.before;
    assert e.after != "" ==> [e.after[0]] + e.after[1..] == e.after;
    assert e.after != "" ==> (e.before + [e.after[0]])[..|e.before|] == e.before;
  }

  // Home goes before the whole text and End behind it, neither changes it.
  lemma HomeAndEnd(e: Editor, home: string, end: string)
    requires (home == HOME || home == HOME_1) && (end == END || end == END_4)
    ensures Feed(e, home) == Fed(Editor("", TextOf(e), e.bracketed, e.valid), [])
    ensures Feed(e, end) == Fed(Editor(TextOf(e), "", e.bracketed, e.valid), [])
  {
    hide *;
    MovesHome(e, home);
    MovesToTheEnd(e, end);
    FeedOneSequence(e, home);
    FeedOneSequence(e, end);
  }

  // ----- deleting -----

  // A character typed is gone with a backspace, or with Left and Delete.
  lemma TypedIsUndone(e: Editor, c: char, back: char)
    requires IsPlain(e.bracketed, c) && (back == '\U{7f}' || back == '\U{8}')
    ensures Feed(e, [c] + [back]) == Fed(e, [])
    ensures Feed(e, [c] + (LEFT + DELETE)) == Fed(e, [])
  {
    hide *;
    PlainKey(e, c);
    var typed := Key(e, c).editor;
    EditKeys(typed, back);
    Moves(typed);
    DeleteTakesTheNext(Press(typed, LEFT));
    FeedKey(e, c, [back]);
    FeedOneKey(typed, back);
    FeedKey(e, c, LEFT + DELETE);
    FeedTwoSequences(typed, LEFT, DELETE);
    assert typed.before[..|typed.before| - 1] == e.before;
    assert ([typed.before[|typed.before| - 1]] + e.after)[1..] == e.after;
  }

  // A backspace takes the character before the cursor, Delete the one after
  // it; at their end of the text they do nothing.
  lemma DeletesOne(e: Editor, back: char)
    requires back == '\U{7f}' || back == '\U{8}'
    ensures Feed(e, [back]) == Fed(if e.before == "" then e else e.(before := e.before[..|e.before| - 1]), [])
    ensures Feed(e, DELETE) == Fed(if e.after == "" then e else e.(after := e.after[1..]), [])
  {
    hide *;
    EditKeys(e, back);
    DeleteTakesTheNext(e);
    FeedOneKey(e, back);
    FeedOneSequence(e, DELETE);
  }

  // Ctrl+U and Ctrl+C take the whole line, which is the user's own again.
  lemma ClearsTheLine(e: Editor, c: char)
    requires c == '\U{15}' || c == '\U{3}'
    ensures Feed(e, [c]) == Fed(Editor("", "", e.bracketed, true), [])
  {
    hide *;
    EditKeys(e, c);
    FeedOneKey(e, c);
  }

  // ----- giving the command -----

  predicate IsEnter(c: char) {
    c == '\r' || c == '\n'
  }

  // Enter gives the whole line, wherever the cursor is, and starts a new one;
  // a blank line gives nothing, nor does one that is not known.
  lemma EnterGives(e: Editor, enter: char)
    requires IsEnter(enter) && !e.bracketed
    ensures Feed(e, [enter])
         == Fed(Editor("", "", false, true), if e.valid && Trim(TextOf(e)) != "" then [Trim(TextOf(e))] else [])
  {
    FeedOneKey(e, enter);
    hide Feed;
  }

  // A line typed without any control character is given as it was typed.
  lemma TypedLineIsGiven(text: string, enter: char)
    requires IsEnter(enter) && forall i :: 0 <= i < |text| ==> IsPlain(false, text[i])
    ensures var e := Editor("", "", false, true);
      Feed(e, text + [enter]) == Fed(e, if Trim(text) != "" then [Trim(text)] else [])
  {
    var e := Editor("", "", false, true);
    RunGoesInAtOnce(e, text, [enter]);
    assert "" + AsInserted(false, text) == text && text + "" == text;
    EnterGives(e.(before := text), enter);
    hide Feed;
  }

  // A pasted text of several lines is one command, given by the Enter after it.
  lemma PastedLinesAreOneCommand(text: string, enter: char)
    requires IsEnter(enter) && forall i :: 0 <= i < |text| ==> IsPlain(true, text[i])
    ensures var e, lines := Editor("", "", false, true), AsInserted(true, text);
      Feed(e, PASTE_START + text + PASTE_END + [enter]) == Fed(e, if Trim(lines) != "" then [Trim(lines)] else [])
  {
    hide *;
    var e, lines := Editor("", "", false, true), AsInserted(true, text);
    var rest := PASTE_END + [enter];
    Pastes(e);
    Pastes(Editor(lines, "", true, true));
    InFour(PASTE_START, text, PASTE_END, [enter]);
    FeedSequence(e, PASTE_START, text + rest);
    RunGoesInAtOnce(e.(bracketed := true), text, rest);
    FeedSequence(Editor(lines, "", true, true), PASTE_END, [enter]);
    EnterGives(Editor(lines, "", false, true), enter);
    LineOf(lines, "", false, true);
    InFour("", lines, "", "");
  }

  lemma InFour(a: string, b: string, c: string, d: string)
    ensures a + b + c + d == a + (b + (c + d))
    ensures a == "" ==> a + b == b
  {
  }

  lemma LineOf(before: string, after: string, bracketed: bool, valid: bool)
    ensures TextOf(Editor(before, after, bracketed, valid)) == before + after
    ensures after == "" ==> before + after == before
  {
  }

  // ----- lines that are not known -----

  // Recalling a line from the history leaves a line that is not known, and
  // so does Tab, or an escape that starts no sequence above.
  lemma RecallsOrCompletes(e: Editor, q: string)
    requires q == UP || q == DOWN
    ensures Feed(e, q) == Fed(Editor("", "", e.bracketed, false), [])
    ensures Feed(e, "\t") == Fed(e.(valid := false), [])
    ensures Feed(e, [ESC]) == Fed(e.(valid := false), [])
  {
    hide *;
    Recalls(e, q);
    EditKeys(e, '\t');
    FeedOneSequence(e, q);
    FeedOneKey(e, '\t');
    LoneEscape(e);
  }

  lemma LoneEscape(e: Editor)
    ensures Feed(e, [ESC]) == Fed(e.(valid := false), [])
  {
    OneEscape();
    hide SequenceAt;
    OneRound(e, [ESC]);
    hide First;
    assert [ESC][1..] == [];
  }

  lemma OneEscape()
    ensures SequenceAt([ESC]).None?
  {
    SequencesAreLonger();
  }

  // Neither ends the line nor clears it.
  predicate KeepsTheLine(c: char) {
    !IsEnter(c) && c != '\U{15}' && c != '\U{3}'
  }

  lemma KeyKeepsUnknown(e: Editor, c: char)
    requires !e.valid && KeepsTheLine(c)
    ensures !Key(e, c).editor.valid && Key(e, c).commands == []
  {
  }

  lemma PressKeepsUnknown(e: Editor, q: string)
    requires !e.valid
    ensures !Press(e, q).valid
  {
  }

  // Whatever is typed after that, the line stays unknown and gives no
  // command until it is ended or cleared.
  lemma {:induction false} UnknownLineGivesNothing(e: Editor, data: string)
    requires !e.valid && forall i :: 0 <= i < |data| ==> KeepsTheLine(data[i])
    ensures Feed(e, data).commands == [] && !Feed(e, data).editor.valid
    decreases |data|
  {
    if data != [] {
      OneRound(e, data);
      KeyKeepsUnknown(e, data[0]);
      if SequenceAt(data).Some? {
        PressKeepsUnknown(e, SequenceAt(data).value);
      }
      hide Key;
      hide Press;
      hide SequenceAt;
      hide KeepsTheLine;
      var first := First(e, data);
      UnknownLineGivesNothing(first.fed.editor, data[first.length..]);
    }
  }

  // So the Enter that ends it gives none, and the next line is known again.
  lemma UnknownLineIsOver(e: Editor, data: string, enter: char)
    requires !e.valid && (forall i :: 0 <= i < |data| ==> KeepsTheLine(data[i])) && IsEnter(enter)
    requires CutsNoSequence(data, [enter]) && !Feed(e, data).editor.bracketed
    ensures Feed(e, data + [enter]) == Fed(Editor("", "", false, true), [])
  {
    UnknownLineGivesNothing(e, data);
    PiecesGiveTheWhole(e, data, [enter]);
    EnterGives(Feed(e, data).editor, enter);
  }
}
