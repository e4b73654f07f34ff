// Following what is typed at a shell, to know the command when Enter comes
// (src/lib/terminalCommandCapture.ts). The source inserts a run of plain text
// at once; that is proved to do what an editor does that takes one key at a
// time, holding the text before and after its cursor.
module CommandCapture {
  import opened Sequences
  import opened JavaScriptText

  datatype CaptureState = CaptureState(text: string, cursor: nat, bracketedPaste: bool, valid: bool)

  const ESC := '\U{1b}'
  const PASTE_START: string := [ESC] + "[200~"
  const PASTE_END: string := [ESC] + "[201~"
  const HOME_1: string := [ESC] + "[1~"
  const END_4: string := [ESC] + "[4~"
  const DELETE: string := [ESC] + "[3~"
  const HOME: string := [ESC] + "[H"
  const END: string := [ESC] + "[F"
  const LEFT: string := [ESC] + "[D"
  const RIGHT: string := [ESC] + "[C"
  const UP: string := [ESC] + "[A"
  const DOWN: string := [ESC] + "[B"

  const SEQUENCES := [PASTE_START, PASTE_END, HOME_1, END_4, DELETE, HOME, END, LEFT, RIGHT, UP, DOWN]

  // The recognised escape sequence the data starts with, if any.
  function FirstOf(candidates: seq<string>, data: string): (r: Option<string>)
    ensures r.Some? ==> r.value in candidates && r.value <= data
    ensures r.None? ==> forall q :: q in candidates ==> !(q <= data)
  {
    if candidates == [] then None
    else if candidates[0] <= data then Some(candidates[0])
    else
      assert candidates == [candidates[0]] + candidates[1..];
      FirstOf(candidates[1..], data)
  }

  function SequenceAt(data: string): Option<string> {
    FirstOf(SEQUENCES, data)
  }

  // Inserted as typed: anything but the control characters and DEL, and
  // inside a bracketed paste line breaks too.
  predicate IsPlain(bracketed: bool, c: char) {
    (c >= ' ' && c != '\U{7f}') || (bracketed && (c == '\n' || c == '\r'))
  }

  function RunLength(bracketed: bool, data: string): (n: nat)
    ensures n <= |data| && forall i :: 0 <= i < n ==> IsPlain(bracketed, data[i])
    ensures n < |data| ==> !IsPlain(bracketed, data[n])
  {
    if data == [] || !IsPlain(bracketed, data[0]) then 0 else 1 + RunLength(bracketed, data[1..])
  }

  // What a plain run inserts: each line break of a paste as a newline.
  function AsInserted(bracketed: bool, run: string): (r: string)
    ensures |r| == |run|
    ensures forall i :: 0 <= i < |run| ==> r[i] == if bracketed && run[i] == '\r' then '\n' else run[i]
  {
    seq(|run|, i requires 0 <= i < |run| => if bracketed && run[i] == '\r' then '\n' else run[i])
  }

  // ----- an editor that takes one key at a time -----

  datatype Editor = Editor(before: string, after: string, bracketed: bool, valid: bool)

  datatype Fed = Fed(editor: Editor, commands: seq<string>)

  function ToEditor(s: CaptureState): Editor
    requires s.cursor <= |s.text|
  {
    Editor(s.text[..s.cursor], s.text[s.cursor..], s.bracketedPaste, s.valid)
  }

  function Press(e: Editor, sequence: string): Editor {
    if sequence == PASTE_START then e.(bracketed := true)
    else if sequence == PASTE_END then e.(bracketed := false)
    else if sequence == LEFT then
      if e.before == "" then e
      else e.(before := e.before[..|e.before| - 1], after := [e.before[|e.before| - 1]] + e.after)
    else if sequence == RIGHT then
      if e.after == "" then e else e.(before := e.before + [e.after[0]], after := e.after[1..])
    else if sequence == HOME || sequence == HOME_1 then e.(before := "", after := e.before + e.after)
    else if sequence == END || sequence == END_4 then e.(before := e.before + e.after, after := "")
    else if sequence == DELETE then if e.after == "" then e else e.(after := e.after[1..])
    else if sequence == UP || sequence == DOWN then Editor("", "", e.bracketed, false)
    else e
  }

  // Without the last word and the space around it; only space stays.
  function WithoutWord(s: string): string {
    if s != "" && !IsSpace(s[|s| - 1]) then WithoutWord(s[..|s| - 1]) else s
  }

  function WithoutLastWord(s: string): string {
    if TrimEnd(s) == "" then s else TrimEnd(WithoutWord(TrimEnd(s)))
  }

  function Key(e: Editor, c: char): Fed {
    if IsPlain(e.bracketed, c) then Fed(e.(before := e.before + [if c == '\r' then '\n' else c]), [])
    else if c == '\r' || c == '\n' then
      var command := Trim(e.before + e.after);
      Fed(Editor("", "", e.bracketed, true), if e.valid && command != "" then [command] else [])
    else if c == '\U{7f}' || c == '\U{8}' then
      Fed(if e.before == "" then e else e.(before := e.before[..|e.before| - 1]), [])
    else if c == '\U{15}' || c == '\U{3}' then Fed(Editor("", "", e.bracketed, true), [])
    else if c == '\U{17}' then Fed(e.(before := WithoutLastWord(e.before)), [])
    else if c == '\t' || c == ESC then Fed(e.(valid := false), [])
    else Fed(e, [])
  }

  // What the first key or escape sequence does, and how much of the input it is.
  datatype Taken = Taken(fed: Fed, length: nat)

  function First(e: Editor, data: string): (r: Taken)
    requires data != []
    ensures 1 <= r.length <= |data|
  {
    var q := SequenceAt(data);
    if q.Some? && q.value != "" then Taken(Fed(Press(e, q.value), []), |q.value|) else Taken(Key(e, data[0]), 1)
  }

  // Key by key, or escape sequence by escape sequence.
  function Feed(e: Editor, data: string): Fed
    decreases |data|
  {
    if data == [] then Fed(e, [])
    else
      var first := First(e, data);
      var rest := Feed(first.fed.editor, data[first.length..]);
      Fed(rest.editor, first.fed.commands + rest.commands)
  }

  // ----- the source's loop -----

  function Inserted(s: CaptureState, value: string): (r: CaptureState)
    requires s.cursor <= |s.text|
    ensures r.cursor <= |r.text|
    ensures ToEditor(r) == ToEditor(s).(before := ToEditor(s).before + value)
  {
    var r := s.(text := s.text[..s.cursor] + value + s.text[s.cursor..], cursor := s.cursor + |value|);
    assert r.text[..r.cursor] == s.text[..s.cursor] + value;
    r
  }

  lemma InBounds(s: CaptureState)
    requires s.cursor <= |s.text|
    ensures ToEditor(s).before + ToEditor(s).after == s.text
    ensures |ToEditor(s).before| == s.cursor
  {
  }

  method PressSequence(s: CaptureState, sequence: string) returns (r: CaptureState)
    requires s.cursor <= |s.text|
    ensures r.cursor <= |r.text| && ToEditor(r) == Press(ToEditor(s), sequence)
  {
    r := s;
    if sequence == PASTE_START {
      r := r.(bracketedPaste := true);
    } else if sequence == PASTE_END {
      r := r.(bracketedPaste := false);
    } else if sequence == LEFT {
      r := r.(cursor := if r.cursor == 0 then 0 else r.cursor - 1);
      assert s.cursor > 0 ==> s.text[r.cursor..] == [s.text[r.cursor]] + s.text[s.cursor..];
      assert s.cursor > 0 ==> s.text[..s.cursor][..r.cursor] == s.text[..r.cursor];
    } else if sequence == RIGHT {
      r := r.(cursor := if r.cursor < |r.text| then r.cursor + 1 else |r.text|);
      assert s.cursor < |s.text| ==> s.text[..r.cursor] == s.text[..s.cursor] + [s.text[s.cursor]];
    } else if sequence == HOME || sequence == HOME_1 {
      r := r.(cursor := 0);
      InBounds(s);
    } else if sequence == END || sequence == END_4 {
      r := r.(cursor := |r.text|);
      InBounds(s);
    } else if sequence == DELETE && r.cursor < |r.text| {
      r := r.(text := r.text[..r.cursor] + r.text[r.cursor + 1..]);
      assert r.text[..r.cursor] == s.text[..s.cursor] && r.text[r.cursor..] == s.text[s.cursor..][1..];
    } else if sequence == UP || sequence == DOWN {
      r := r.(text := "", cursor := 0, valid := false);
    }
  }

  method TypeKey(s: CaptureState, c: char) returns (r: CaptureState, commands: seq<string>)
    requires s.cursor <= |s.text|
    ensures r.cursor <= |r.text| && Fed(ToEditor(r), commands) == Key(ToEditor(s), c)
  {
    r, commands := s, [];
    InBounds(s);
    if c == '\r' || c == '\n' {
      if r.bracketedPaste {
        r := Inserted(r, "\n");
      } else {
        var command := Trim(r.text);
        if r.valid && command != "" {
          commands := [command];
        }
        r := r.(text := "", cursor := 0, valid := true);
      }
    } else if c == '\U{7f}' || c == '\U{8}' {
      if r.cursor > 0 {
        r := r.(text := r.text[..r.cursor - 1] + r.text[r.cursor..], cursor := r.cursor - 1);
        assert r.text[..r.cursor] == s.text[..s.cursor][..r.cursor] && r.text[r.cursor..] == s.text[s.cursor..];
      }
    } else if c == '\U{15}' || c == '\U{3}' {
      r := r.(text := "", cursor := 0, valid := true);
    } else if c == '\U{17}' {
      var before := WithoutLastWord(r.text[..r.cursor]);
      r := r.(text := before + r.text[r.cursor..], cursor := |before|);
      assert r.text[..r.cursor] == before && r.text[r.cursor..] == s.text[s.cursor..];
    } else if c == '\t' || c == ESC {
      r := r.(valid := false);
    } else if c >= ' ' {
      r := Inserted(r, [c]);
    }
  }

  lemma SequencesAreLonger()
    ensures forall q :: q in SEQUENCES ==> |q| >= 3 && q[0] == ESC && forall i :: 1 <= i < |q| ==> q[i] != ESC
  {
  }

  lemma NoSequence(data: string)
    requires data != [] && data[0] != ESC
    ensures SequenceAt(data).None?
  {
    SequencesAreLonger();
    forall q | q in SEQUENCES ensures !(q <= data) {
      assert q[0] == ESC;
    }
  }

  lemma FirstOfPlain(e: Editor, data: string)
    requires data != [] && IsPlain(e.bracketed, data[0])
    ensures First(e, data) == Taken(Fed(e.(before := e.before + [if data[0] == '\r' then '\n' else data[0]]), []), 1)
  {
    NoSequence(data);
  }

  // A plain run goes in at once as it would key by key.
  lemma {:induction false} RunGoesInAtOnce(e: Editor, run: string, rest: string)
    requires forall i :: 0 <= i < |run| ==> IsPlain(e.bracketed, run[i])
    ensures Feed(e, run + rest) == Feed(e.(before := e.before + AsInserted(e.bracketed, run)), rest)
    decreases |run|
  {
    hide First;
    if run == [] {
      assert run + rest == rest;
      assert e.before + AsInserted(e.bracketed, run) == e.before;
    } else {
      var data := run + rest;
      var c := if run[0] == '\r' then '\n' else run[0];
      FirstOfPlain(e, data);
      assert data[1..] == run[1..] + rest;
      RunGoesInAtOnce(e.(before := e.before + [c]), run[1..], rest);
      assert AsInserted(e.bracketed, run) == [c] + AsInserted(e.bracketed, run[1..]);
      Associates(e.before, [c], AsInserted(e.bracketed, run[1..]));
    }
  }

  // What one round of the loop takes off the input.
  lemma OneRound(e: Editor, data: string)
    requires data != []
    ensures SequenceAt(data).Some?
            ==> First(e, data) == Taken(Fed(Press(e, SequenceAt(data).value), []), |SequenceAt(data).value|)
    ensures SequenceAt(data).None? ==> First(e, data) == Taken(Key(e, data[0]), 1)
  {
    SequencesAreLonger();
  }

  // One round: an escape sequence, a run of plain text at once, or one key.
  method TakeSome(s: CaptureState, rest: string) returns (r: CaptureState, commands: seq<string>, n: nat)
    requires s.cursor <= |s.text| && rest != []
    ensures r.cursor <= |r.text| && 1 <= n <= |rest|
    ensures Feed(ToEditor(s), rest)
         == Fed(Feed(ToEditor(r), rest[n..]).editor, commands + Feed(ToEditor(r), rest[n..]).commands)
  {
    hide First;
    hide Press;
    hide Key;
    hide SequenceAt;
    OneRound(ToEditor(s), rest);
    var sequence := SequenceAt(rest);
    if sequence.Some? {
      r := PressSequence(s, sequence.value);
      return r, [], |sequence.value|;
    }
    n := RunLength(s.bracketedPaste, rest);
    if n > 0 {
      RunGoesInAtOnce(ToEditor(s), rest[..n], rest[n..]);
      assert rest[..n] + rest[n..] == rest;
      r := Inserted(s, AsInserted(s.bracketedPaste, rest[..n]));
      return r, [], n;
    }
    r, commands := TypeKey(s, rest[0]);
    n := 1;
  }

  // The whole input, with plain runs inserted at once.
  method CaptureTerminalInput(current: CaptureState, data: string) returns (state: CaptureState, commands: seq<string>)
    requires current.cursor <= |current.text|
    ensures state.cursor <= |state.text|
    ensures Fed(ToEditor(state), commands) == Feed(ToEditor(current), data)
  {
    hide First;
    state, commands := current, [];
    var index := 0;
    assert data[0..] == data;
    while index < |data|
      invariant index <= |data| && state.cursor <= |state.text|
      invariant Feed(ToEditor(current), data)
             == Fed(Feed(ToEditor(state), data[index..]).editor,
                    commands + Feed(ToEditor(state), data[index..]).commands)
    {
      var more, n;
      state, more, n := TakeSome(state, data[index..]);
      assert data[index..][n..] == data[index + n..];
      Associates(commands, more, Feed(ToEditor(state), data[index + n..]).commands);
      commands := commands + more;
      index := index + n;
    }
  }

  // ----- input that comes in pieces -----

  // No recognised escape sequence in the input runs over the cut.
  ghost predicate CutsNoSequence(a: string, b: string) {
    forall k, q :: 0 <= k < |a| && q in SEQUENCES && q <= (a + b)[k..] ==> k + |q| <= |a|
  }

  lemma CutLater(a: string, b: string, n: nat)
    requires CutsNoSequence(a, b) && n <= |a|
    ensures CutsNoSequence(a[n..], b)
  {
    forall k, q | 0 <= k < |a[n..]| && q in SEQUENCES && q <= (a[n..] + b)[k..] ensures k + |q| <= |a[n..]| {
      assert (a[n..] + b)[k..] == (a + b)[n + k..];
    }
  }

  // The same sequence, or none, is found whether the rest is there yet or not.
  lemma SameSequence(a: string, b: string)
    requires CutsNoSequence(a, b) && a != []
    ensures SequenceAt(a + b) == SequenceAt(a)
  {
    forall q | q in SEQUENCES ensures q <= a + b <==> q <= a {
      assert (a + b)[0..] == a + b;
      if q <= a + b {
        assert q == (a + b)[..|q|] == a[..|q|];
      }
      if q <= a {
        assert q == a[..|q|] == (a + b)[..|q|];
      }
    }
    SameFound(SEQUENCES, a + b, a);
  }

  lemma {:induction false} SameFound(candidates: seq<string>, x: string, y: string)
    requires forall q :: q in candidates ==> (q <= x <==> q <= y)
    ensures FirstOf(candidates, x) == FirstOf(candidates, y)
  {
    if candidates != [] {
      assert candidates[0] in candidates;
      forall q | q in candidates[1..] ensures q <= x <==> q <= y {
        assert q in candidates;
      }
      SameFound(candidates[1..], x, y);
    }
  }

  lemma SameFirst(e: Editor, a: string, b: string)
    requires CutsNoSequence(a, b) && a != []
    ensures First(e, a + b) == First(e, a)
  {
    SameSequence(a, b);
  }

  // Input that comes in pieces gives the state and the commands that the
  // whole gives, wherever it is cut, but inside an escape sequence.
  lemma {:induction false} PiecesGiveTheWhole(e: Editor, a: string, b: string)
    requires CutsNoSequence(a, b)
    ensures var first := Feed(e, a); var second := Feed(first.editor, b);
            Feed(e, a + b) == Fed(second.editor, first.commands + second.commands)
    decreases |a|
  {
    hide First;
    hide CutsNoSequence;
    if a == [] {
      assert a + b == b;
    } else {
      SameFirst(e, a, b);
      var first := First(e, a);
      CutLater(a, b, first.length);
      assert (a + b)[first.length..] == a[first.length..] + b;
      PiecesGiveTheWhole(first.fed.editor, a[first.length..], b);
      var rest := Feed(first.fed.editor, a[first.length..]);
      Associates(first.fed.commands, rest.commands, Feed(rest.editor, b).commands);
    }
  }

  // ----- deleting a word -----

  // What `\s*\S+\s*` matches.
  ghost predicate IsSpacedWord(s: string) {
    exists i, j :: 0 <= i < j <= |s| && IsBlank(s[..i]) && (forall k :: i <= k < j ==> !IsSpace(s[k]))
        && IsBlank(s[j..])
  }

  lemma {:induction false} TrimEndIsPrefix(s: string)
    ensures TrimEnd(s) <= s && forall k :: |TrimEnd(s)| <= k < |s| ==> IsSpace(s[k])
    ensures TrimEnd(s) != "" ==> !IsSpace(TrimEnd(s)[|TrimEnd(s)| - 1])
  {
    if s != [] && IsSpace(s[|s| - 1]) {
      TrimEndIsPrefix(s[..|s| - 1]);
    }
  }

  lemma {:induction false} WithoutWordIsPrefix(s: string)
    ensures WithoutWord(s) <= s && (forall k :: |WithoutWord(s)| <= k < |s| ==> !IsSpace(s[k]))
    ensures WithoutWord(s) != "" ==> IsSpace(WithoutWord(s)[|WithoutWord(s)| - 1])
  {
    if s != [] && !IsSpace(s[|s| - 1]) {
      WithoutWordIsPrefix(s[..|s| - 1]);
    }
  }

  // What is deleted is the longest end of the text that is one word with
  // space around it, and nothing when the text holds no word.
  lemma DeletesTheLastWord(s: string)
    ensures var r := WithoutLastWord(s);
            && r <= s
            && (IsBlank(s) ==> r == s)
            && (!IsBlank(s) ==> IsSpacedWord(s[|r|..]))
            && forall n :: 0 <= n < |r| ==> !IsSpacedWord(s[n..])
  {
    var r, t, u := WithoutLastWord(s), TrimEnd(s), WithoutWord(TrimEnd(s));
    TrimEndIsPrefix(s);
    if t == "" {
      forall n | 0 <= n < |r| ensures !IsSpacedWord(s[n..]) {
        BlankHasNoWord(s[n..]);
      }
    } else {
      assert !IsBlank(s);
      WithoutWordIsPrefix(t);
      TrimEndIsPrefix(u);
      LastWordIsSpaced(s, r, u, t);
    }
  }

  lemma LastWordIsSpaced(s: string, r: string, u: string, t: string)
    requires r <= u <= t <= s && |u| < |t|
    requires IsBlank(s[|t|..]) && (forall k :: |u| <= k < |t| ==> !IsSpace(t[k])) && IsBlank(u[|r|..])
    requires r != "" ==> !IsSpace(r[|r| - 1])
    requires u != "" ==> IsSpace(u[|u| - 1])
    ensures IsSpacedWord(s[|r|..]) && forall n :: 0 <= n < |r| ==> !IsSpacedWord(s[n..])
  {
    var i, j := |u| - |r|, |t| - |r|;
    var m := s[|r|..];
    assert IsBlank(m[..i]) && (forall k :: i <= k < j ==> !IsSpace(m[k])) && IsBlank(m[j..]);
    forall n | 0 <= n < |r| ensures !IsSpacedWord(s[n..]) {
      TwoWordsAreNotOne(s[n..], |r| - 1 - n, |u| - 1 - n, |u| - n);
    }
  }

  lemma BlankHasNoWord(s: string)
    requires IsBlank(s)
    ensures !IsSpacedWord(s)
  {
    forall i, j | 0 <= i < j <= |s| && IsBlank(s[..i]) && IsBlank(s[j..])
      ensures exists k :: i <= k < j && IsSpace(s[k])
    {
      assert IsSpace(s[i]);
    }
  }

  lemma TwoWordsAreNotOne(s: string, p: nat, m: nat, q: nat)
    requires p < m < q < |s| && !IsSpace(s[p]) && IsSpace(s[m]) && !IsSpace(s[q])
    ensures !IsSpacedWord(s)
  {
    forall i, j | 0 <= i < j <= |s| && IsBlank(s[..i]) && IsBlank(s[j..])
      ensures exists k :: i <= k < j && IsSpace(s[k])
    {
      BlankMissesWord(s, i, j, p, q);
      assert IsSpace(s[m]);
    }
  }

  lemma BlankMissesWord(s: string, i: nat, j: nat, p: nat, q: nat)
    requires i < j <= |s| && IsBlank(s[..i]) && IsBlank(s[j..]) && p < |s| && q < |s|
    requires !IsSpace(s[p]) && !IsSpace(s[q])
    ensures i <= p && q < j
  {
    assert s[..i] + s[i..] == s && s[..j] + s[j..] == s;
  }
}
