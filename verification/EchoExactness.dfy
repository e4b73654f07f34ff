// Where the remote echoes what is typed, the guesses are exact
// (src/lib/predictiveEcho.ts): without backspaces, the keys still pending
// are always the ones the screen does not show yet.
module EchoExactness {
  import opened Sequences
  import opened PredictiveEcho
  import opened EchoProofs

  // ----- a remote that echoes -----

  // The row shows the first keys of `text` from column `start` on, then
  // blanks, with the cursor after them.
  ghost predicate Echoes(screen: Screen, row: int, start: int, text: string) {
    && screen.cursorRow == row
    && start <= screen.cursorCol <= start + |text|
    && (forall col :: start <= col < screen.cursorCol ==> screen.charAt(row, col) == text[col - start])
    && (forall col :: screen.cursorCol <= col ==> screen.charAt(row, col) == ' ')
  }

  ghost predicate IsText(data: string) {
    forall i :: 0 <= i < |data| ==> IsPredictable(data[i])
  }

  // The pending keys are those of `text` from the `echoed`th on, and nothing
  // on the row is in doubt, tentative or taken for masked.
  ghost predicate Exact(p: Predictor, row: int, start: int, text: string, echoed: nat) {
    && p.row == Some(row) && p.lineStart <= start && p.base == start + echoed
    && p.maskedRow != Some(row) && (p.suspect.Some? ==> p.suspect.value.row != row)
    && !p.tentative && p.doubtSince.None?
    && (echoed > 0 ==> p.confirmed)
    && echoed + |p.pending| == |text|
    && forall i :: 0 <= i < |p.pending| ==> KeyIs(p.pending[i], start + echoed + i, text[echoed + i])
  }

  predicate KeyIs(key: Keystroke, col: int, c: char) {
    key.col == col && key.value == c && key.cursorAfter == col + 1 && !key.erases
  }

  // The keys typed so far are all right of the last column but one.
  lemma {:induction false} NotGuessedYet(pending: seq<Keystroke>, col: int)
    requires forall i :: 0 <= i < |pending| ==> pending[i].col < col
    ensures GuessAt(pending, col).None?
  {
    if pending != [] {
      NotGuessedYet(pending[..|pending| - 1], col);
    }
  }

  lemma InsertStaysExact(p: Predictor, c: char, screen: Screen, now: int, row: int, start: int, text: string,
          echoed: nat)
    requires Exact(p, row, start, text, echoed) && Echoes(screen, row, start, text)
             && echoed <= screen.cursorCol - start
    requires start + |text| < screen.cols - 1
    ensures Insert(p, c, screen, now).ok && Exact(Insert(p, c, screen, now).p, row, start, text + [c], echoed)
  {
    var q, col := AtCursor(p, screen), NextCol(p, screen);
    if p.pending != [] {
      assert KeyIs(p.pending[|p.pending| - 1], start + |text| - 1, text[|text| - 1]);
    }
    assert col == start + |text| && Exact(q, row, start, text, echoed);
    assert forall i :: 0 <= i < |q.pending| ==> KeyIs(q.pending[i], start + echoed + i, text[echoed + i]);
    NotGuessedYet(q.pending, col);
    assert ValueAt(q, col, screen) == ' ';
  }

  lemma EchoesAlsoStartOf(screen: Screen, row: int, start: int, seen: string, text: string)
    requires seen <= text && Echoes(screen, row, start, seen)
    ensures Echoes(screen, row, start, text)
  {
  }

  lemma {:induction false} TypeCharsStaysExact(p: Predictor, data: string, screen: Screen, now: int, row: int,
          start: int, text: string, seen: string, echoed: nat)
    requires Exact(p, row, start, text, echoed) && IsText(data)
    requires seen <= text && Echoes(screen, row, start, seen) && echoed <= screen.cursorCol - start
    requires start + |text| + |data| <= screen.cols - 1
    ensures Exact(TypeChars(p, data, screen, now), row, start, text + data, echoed)
    decreases |data|
  {
    if data == [] {
      assert text + data == text;
    } else {
      EchoesAlsoStartOf(screen, row, start, seen, text);
      assert IsPredictable(data[0]) && !IsBackspace(data[0]);
      InsertStaysExact(p, data[0], screen, now, row, start, text, echoed);
      TypeCharsStaysExact(Insert(p, data[0], screen, now).p, data[1..], screen, now, row, start, text + [data[0]],
                          seen, echoed);
      Associates(text, [data[0]], data[1..]);
      assert [data[0]] + data[1..] == data;
    }
  }

  lemma TypeStaysExact(p: Predictor, data: string, screen: Screen, now: int, row: int, start: int, text: string,
          echoed: nat)
    requires Exact(p, row, start, text, echoed) && IsText(data)
    requires Echoes(screen, row, start, text) && echoed <= screen.cursorCol - start
    requires start + |text| + |data| <= screen.cols - 1
    ensures Exact(Type(p, data, screen, now), row, start, text + data, echoed)
  {
    assert !EndsLine(data) by {
      assert forall c :: c in data ==> IsPredictable(c);
    }
    TypeCharsStaysExact(p, data, screen, now, row, start, text, text, echoed);
  }

  // A check leaves exactly the keys the screen does not show.
  lemma ReconcileLeavesTheUnechoed(p: Predictor, screen: Screen, now: int, row: int, start: int, text: string,
          echoed: nat)
    requires Exact(p, row, start, text, echoed) && Echoes(screen, row, start, text)
             && echoed <= screen.cursorCol - start
    ensures Exact(Reconcile(p, screen, now), row, start, text, screen.cursorCol - start)
  {
    hide Place;
    hide Confirm;
    hide EchoedAs;
    hide FindEchoed;
    if p.pending != [] {
      FindsTheLastEchoed(p, screen, row, start, text, echoed);
      var i := FindEchoed(p.pending, row, screen);
      if i >= 0 {
        ConfirmStaysExact(p, now, row, start, text, echoed, i);
        assert echoed + i + 1 == screen.cursorCol - start;
        assert Reconcile(p, screen, now) == Confirm(p, row, i, now);
      } else {
        assert Unechoed(p, row, screen, now) == Doubted(p, row, screen, now);
        assert Reconcile(p, screen, now) == Doubted(p, row, screen, now) == p;
      }
    }
  }

  // Of keys one after the other, the one found echoed is the one just before the cursor.
  lemma FindsTheLastShown(pending: seq<Keystroke>, screen: Screen, row: int, from: int, text: string)
    requires |pending| == |text| && forall i :: 0 <= i < |pending| ==> KeyIs(pending[i], from + i, text[i])
    requires screen.cursorRow == row && from <= screen.cursorCol <= from + |text|
    requires forall col :: from <= col < screen.cursorCol ==> screen.charAt(row, col) == text[col - from]
    ensures FindEchoed(pending, row, screen) == screen.cursorCol - from - 1
    ensures screen.cursorCol == from ==> EchoedAs(pending, row, screen).None?
  {
    var j, i := screen.cursorCol - from - 1, FindEchoed(pending, row, screen);
    assert i >= 0 ==> KeyIs(pending[i], from + i, text[i]);
    if j >= 0 {
      assert KeyIs(pending[j], from + j, text[j]);
      assert EchoesAt(pending[j], row, screen);
    } else {
      EchoedAsFindsAny(pending, row, screen);
      assert forall i :: 0 <= i < |pending| ==> KeyIs(pending[i], from + i, text[i]);
    }
  }

  lemma FindsTheLastEchoed(p: Predictor, screen: Screen, row: int, start: int, text: string, echoed: nat)
    requires Exact(p, row, start, text, echoed) && Echoes(screen, row, start, text)
             && echoed <= screen.cursorCol - start
    ensures FindEchoed(p.pending, row, screen) == screen.cursorCol - (start + echoed) - 1
    ensures screen.cursorCol == start + echoed ==> EchoedAs(p.pending, row, screen).None?
  {
    FindsTheLastShown(p.pending, screen, row, start + echoed, text[echoed..]);
  }

  lemma ConfirmStaysExact(p: Predictor, now: int, row: int, start: int, text: string, echoed: nat, j: nat)
    requires Exact(p, row, start, text, echoed) && j < |p.pending|
    ensures Exact(Confirm(p, row, j, now), row, start, text, echoed + j + 1)
  {
    assert KeyIs(p.pending[j], start + echoed + j, text[echoed + j]);
    var rest := Confirm(p, row, j, now).pending;
    forall i | 0 <= i < |rest| ensures KeyIs(rest[i], start + echoed + j + 1 + i, text[echoed + j + 1 + i]) {
      assert KeyIs(p.pending[j + 1 + i], start + echoed + j + 1 + i, text[echoed + j + 1 + i]);
    }
  }

  // The oldest key is not late yet.
  ghost predicate Timely(p: Predictor, now: int) {
    p.pending != [] ==> (now - p.pending[0].at) as real <= TIMEOUT_MS
  }

  // ----- whole runs -----

  // Every event comes while the row shows the first keys typed so far, and
  // never fewer of them than before; `shown` is how many it last showed.
  ghost predicate Faithful(p: Predictor, events: seq<Event>, row: int, start: int, text: string, shown: nat)
    decreases |events|
  {
    events == [] ||
    (var e := events[0];
     && !e.Forgotten?
     && Echoes(e.screen, row, start, text) && shown <= e.screen.cursorCol - start
     && (e.Typed? ==> IsText(e.data) && start + |text| + |e.data| <= e.screen.cols - 1)
     && (e.Expired? ==> Timely(p, e.now))
     && Faithful(Apply(p, e), events[1..], row, start, TextAfter(text, e), e.screen.cursorCol - start))
  }

  function TextAfter(text: string, e: Event): string {
    if e.Typed? then text + e.data else text
  }

  function AllText(text: string, events: seq<Event>): string
    decreases |events|
  {
    if events == [] then text else AllText(TextAfter(text, events[0]), events[1..])
  }

  // How many keys the screen showed at the last check.
  function LastSeen(echoed: nat, events: seq<Event>, start: int): (n: int)
    decreases |events|
  {
    if events == [] then echoed
    else LastSeen(if events[0].Reconciled? && events[0].screen.cursorCol >= start
                  then events[0].screen.cursorCol - start else echoed, events[1..], start)
  }

  lemma EventStaysExact(p: Predictor, e: Event, row: int, start: int, text: string, echoed: nat)
    requires Exact(p, row, start, text, echoed) && !e.Forgotten?
    requires Echoes(e.screen, row, start, text) && echoed <= e.screen.cursorCol - start
    requires e.Typed? ==> IsText(e.data) && start + |text| + |e.data| <= e.screen.cols - 1
    requires e.Expired? ==> Timely(p, e.now)
    ensures Exact(Apply(p, e), row, start, TextAfter(text, e), if e.Reconciled? then e.screen.cursorCol - start
                  else echoed)
  {
    hide Type;
    hide Reconcile;
    match e {
      case Typed(data, screen, at) => TypeStaysExact(p, data, screen, at, row, start, text, echoed);
      case Reconciled(screen, at) => ReconcileLeavesTheUnechoed(p, screen, at, row, start, text, echoed);
      case Expired(screen, at) => assert Expire(p, screen, at) == p;
    }
  }

  // In every such run the pending keys are those the screen did not show at
  // the last check, and the row is never in doubt and never taken for masked.
  lemma {:induction false} FaithfulRunIsExact(p: Predictor, events: seq<Event>, row: int, start: int, text: string,
          echoed: nat, shown: nat)
    requires Exact(p, row, start, text, echoed) && echoed <= shown
    requires Faithful(p, events, row, start, text, shown)
    ensures LastSeen(echoed, events, start) >= 0
    ensures Exact(Run(p, events), row, start, AllText(text, events), LastSeen(echoed, events, start))
    decreases |events|
  {
    hide Exact;
    hide Echoes;
    hide Timely;
    hide Apply;
    if events != [] {
      var e := events[0];
      var now := e.screen.cursorCol - start;
      EventStaysExact(p, e, row, start, text, echoed);
      FaithfulRunIsExact(Apply(p, e), events[1..], row, start, TextAfter(text, e), if e.Reconciled? then now
                         else echoed, now);
    }
  }

  // Such a run begins with the first key typed on a blank row, in a state
  // with nothing pending and nothing tentative.
  lemma FirstKeyIsExact(p: Predictor, c: char, screen: Screen, now: int)
    requires p.pending == [] && !p.tentative && p.row != Some(screen.cursorRow)
    requires p.maskedRow != Some(screen.cursorRow) && (p.suspect.Some? ==> p.suspect.value.row != screen.cursorRow)
    requires IsPredictable(c) && Echoes(screen, screen.cursorRow, screen.cursorCol, [])
    requires screen.cursorCol < screen.cols - 1
    ensures Insert(p, c, screen, now).ok
    ensures Exact(Insert(p, c, screen, now).p, screen.cursorRow, screen.cursorCol, [c], 0)
  {
  }

  lemma TypingStartsExact(p: Predictor, data: string, screen: Screen, now: int)
    requires p.pending == [] && !p.tentative && p.row != Some(screen.cursorRow)
    requires p.maskedRow != Some(screen.cursorRow) && (p.suspect.Some? ==> p.suspect.value.row != screen.cursorRow)
    requires data != [] && IsText(data) && Echoes(screen, screen.cursorRow, screen.cursorCol, [])
    requires screen.cursorCol + |data| <= screen.cols - 1
    ensures Exact(Type(p, data, screen, now), screen.cursorRow, screen.cursorCol, data, 0)
  {
    assert !EndsLine(data) by {
      assert forall c :: c in data ==> IsPredictable(c);
    }
    assert IsPredictable(data[0]);
    FirstKeyIsExact(p, data[0], screen, now);
    hide Insert;
    hide Exact;
    var row, start := screen.cursorRow, screen.cursorCol;
    var typed := TypeChar(p, data[0], screen, now);
    assert typed.ok && Exact(typed.p, row, start, [data[0]], 0);
    TypeCharsStaysExact(typed.p, data[1..], screen, now, row, start, [data[0]], [], 0);
    assert [data[0]] + data[1..] == data;
  }

  ghost predicate ShowsText(cells: map<int, PredictedCell>, from: int, text: string) {
    && (forall col :: col in cells ==> from <= col < from + |text|)
    && (forall col :: from <= col < from + |text| ==> col in cells && cells[col].shown == text[col - from])
  }

  lemma {:induction false} CellsOfText(pending: seq<Keystroke>, from: int, text: string, now: int, stallMs: real)
    requires |pending| == |text|
    requires forall i :: 0 <= i < |pending| ==> KeyIs(pending[i], from + i, text[i])
    ensures ShowsText(CellsOf(pending, now, stallMs), from, text)
  {
    if pending != [] {
      var n := |pending| - 1;
      CellsOfText(pending[..n], from, text[..n], now, stallMs);
      assert KeyIs(pending[n], from + n, text[n]);
      var cells := CellsOf(pending, now, stallMs);
      forall col | from <= col < from + |text| ensures col in cells && cells[col].shown == text[col - from] {
        assert col < from + n ==> text[..n][col - from] == text[col - from];
      }
    }
  }

  // Once a key was echoed, the view completes the row: the unechoed keys,
  // each in its place, and the cursor after the last key typed.
  lemma ExactViewCompletesTheRow(p: Predictor, row: int, start: int, text: string, echoed: nat, now: int)
    requires Exact(p, row, start, text, echoed) && 0 < echoed < |text|
    ensures var view := View(p, now);
            && view.Some? && view.value.row == row && view.value.cursorCol == start + |text|
            && ShowsText(view.value.cells, start + echoed, text[echoed..])
  {
    var n := |p.pending| - 1;
    assert KeyIs(p.pending[n], start + echoed + n, text[echoed + n]);
    CellsOfText(p.pending, start + echoed, text[echoed..], now, Max(STALL_MS, 2.0 * RoundTrip(p)));
  }
}
