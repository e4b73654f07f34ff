// Typing dropped files' paths at a POSIX shell (src/lib/droppedPaths.ts), and
// a reader of shell words to say what the shell makes of them: blanks
// separate words, a backslash keeps the next character, single quotes keep
// what is between them (sections 2.2.1, 2.2.2 and 2.3 of the Shell Command
// Language of POSIX.1-2017). Anything else that may mean more than itself
// makes the reader give up.
module DroppedPaths {
  import opened Sequences
  import opened JavaScriptText

  // ----- writing -----

  // Where one of these occurs a path cannot be typed as it is.
  predicate IsPosixSpecial(c: char) {
    IsSpace(c) || c in "!\"#$&'()*;<>?[\\]^`{|}~="
  }

  // Backslashes will not do for these: escaped, a line break would vanish.
  function QuoteChar(c: char): string {
    if !IsPosixSpecial(c) then [c] else if c == '\n' then "'\n'" else ['\\', c]
  }

  function QuotePosix(path: string): string {
    if path == "" then "" else QuoteChar(path[0]) + QuotePosix(path[1..])
  }

  function NonEmpty(paths: seq<string>): seq<string> {
    if paths == [] then [] else (if paths[0] == "" then [] else [paths[0]]) + NonEmpty(paths[1..])
  }

  function QuoteEach(paths: seq<string>): (r: seq<string>)
    ensures |r| == |paths|
  {
    if paths == [] then [] else [QuotePosix(paths[0])] + QuoteEach(paths[1..])
  }

  // Every quoted path is followed by a space, the last one too.
  function DroppedPathsText(paths: seq<string>): string {
    var quoted := QuoteEach(NonEmpty(paths));
    if quoted != [] then Join(quoted, " ") + " " else ""
  }

  // ----- reading -----

  // Unquoted, these may start an expansion, a comment, an assignment, a
  // pattern or an operator, or end the command.
  predicate MayMeanMore(c: char) {
    c in "!\"#$&()*;<>?[]^`{|}~=" || (IsSpace(c) && c != ' ' && c != '\t')
  }

  // Where the closing quote is.
  function QuoteEnd(text: string): (r: Option<nat>)
    ensures r.Some? ==> r.value < |text| && text[r.value] == '\''
  {
    if text == "" then None
    else if text[0] == '\'' then Some(0)
    else
      var rest := QuoteEnd(text[1..]);
      if rest.None? then None else Some(rest.value + 1)
  }

  function Add(word: Option<string>, more: string): Option<string> {
    Some((if word.Some? then word.value else "") + more)
  }

  function Finished(words: seq<string>, word: Option<string>): seq<string> {
    if word.Some? then words + [word.value] else words
  }

  // The words of the text, after those read already and the one being read.
  function ReadWords(text: string, words: seq<string>, word: Option<string>): Option<seq<string>>
    decreases |text|
  {
    if text == "" then Some(Finished(words, word))
    else
      var c := text[0];
      if c == '\\' then
        if |text| == 1 then None
        // A backslash and a line break are both taken away.
        else if text[1] == '\n' then ReadWords(text[2..], words, word)
        else ReadWords(text[2..], words, Add(word, [text[1]]))
      else if c == '\'' then
        var end := QuoteEnd(text[1..]);
        if end.None? then None else ReadWords(text[end.value + 2..], words, Add(word, text[1..end.value + 1]))
      else if c == ' ' || c == '\t' then ReadWords(text[1..], Finished(words, word), None)
      else if MayMeanMore(c) then None
      else ReadWords(text[1..], words, Add(word, [c]))
  }

  // ----- what was written is read -----

  lemma ReadsOneChar(c: char, rest: string, words: seq<string>, word: Option<string>)
    ensures ReadWords(QuoteChar(c) + rest, words, word) == ReadWords(rest, words, Add(word, [c]))
  {
    var text := QuoteChar(c) + rest;
    if !IsPosixSpecial(c) {
      assert text[1..] == rest;
    } else if c == '\n' {
      assert text[1..][1..][0] == '\'' && QuoteEnd(text[1..][1..]) == Some(0) && QuoteEnd(text[1..]) == Some(1);
      assert text[1..2] == [c] && text[3..] == rest;
    } else {
      assert text[2..] == rest;
    }
  }

  lemma {:induction false} ReadsOnePath(path: string, rest: string, words: seq<string>, word: Option<string>)
    requires path != ""
    ensures ReadWords(QuotePosix(path) + rest, words, word) == ReadWords(rest, words, Add(word, path))
  {
    var more := QuotePosix(path[1..]) + rest;
    Associates(QuoteChar(path[0]), QuotePosix(path[1..]), rest);
    ReadsOneChar(path[0], more, words, word);
    assert path == [path[0]] + path[1..];
    if path[1..] == "" {
      assert more == rest && [path[0]] == path;
    } else {
      ReadsOnePath(path[1..], rest, words, Add(word, [path[0]]));
      Associates(if word.Some? then word.value else "", [path[0]], path[1..]);
    }
  }

  lemma {:induction false} ReadsTheirText(paths: seq<string>, rest: string, words: seq<string>)
    requires paths != [] && forall i :: 0 <= i < |paths| ==> paths[i] != ""
    ensures ReadWords(Join(QuoteEach(paths), " ") + " " + rest, words, None) == ReadWords(rest, words + paths, None)
  {
    var first, quoted := QuotePosix(paths[0]), QuoteEach(paths);
    var after := if |paths| == 1 then rest else Join(quoted[1..], " ") + " " + rest;
    assert Join(quoted, " ") + " " + rest == first + (" " + after);
    ReadsOnePath(paths[0], " " + after, words, None);
    assert "" + paths[0] == paths[0];
    assert (" " + after)[1..] == after;
    assert paths == [paths[0]] + paths[1..];
    if |paths| == 1 {
      assert words + [paths[0]] == words + paths;
    } else {
      assert quoted[1..] == QuoteEach(paths[1..]);
      ReadsTheirText(paths[1..], rest, words + [paths[0]]);
      Associates(words, [paths[0]], paths[1..]);
    }
  }

  lemma {:induction false} NonEmptyAre(paths: seq<string>)
    ensures forall i :: 0 <= i < |NonEmpty(paths)| ==> NonEmpty(paths)[i] != ""
  {
    if paths != [] {
      NonEmptyAre(paths[1..]);
    }
  }

  // The shell reads the text of a drop as exactly the non-empty paths, in
  // order, whatever characters they hold; what is typed after it starts a
  // word of its own.
  lemma DroppedPathsAreReadBack(paths: seq<string>, rest: string)
    ensures ReadWords(DroppedPathsText(paths) + rest, [], None) == ReadWords(rest, NonEmpty(paths), None)
    ensures ReadWords(DroppedPathsText(paths), [], None) == Some(NonEmpty(paths))
  {
    var named := NonEmpty(paths);
    NonEmptyAre(paths);
    var text := DroppedPathsText(paths);
    if named == [] {
      assert text + rest == rest;
    } else {
      ReadsTheirText(named, rest, []);
      ReadsTheirText(named, "", []);
      assert [] + named == named;
      assert text + "" == text;
    }
  }
}
