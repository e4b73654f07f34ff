// What holds of the predicted echo in every run, whatever the screen shows
// (src/lib/predictiveEcho.ts): the guesses form one unbroken line of typing,
// nothing is shown where typing does not echo, and where it does echo
// faithfully the guesses are exactly what is still on its way.
module EchoProofs {
  import opened Sequences
  import opened PredictiveEcho

  // ----- runs -----

  datatype Event =
    | Typed(data: string, screen: Screen, now: int)
    | Reconciled(screen: Screen, now: int)
    | Expired(screen: Screen, now: int)
    | Forgotten

  function Apply(p: Predictor, e: Event): Predictor {
    match e
    case Typed(data, screen, now) => Type(p, data, screen, now)
    case Reconciled(screen, now) => Reconcile(p, screen, now)
    case Expired(screen, now) => Expire(p, screen, now)
    case Forgotten => Reset(p)
  }

  function Run(p: Predictor, events: seq<Event>): Predictor
    decreases |events|
  {
    if events == [] then p else Run(Apply(p, events[0]), events[1..])
  }

  // ----- an unbroken line of typing -----

  // The key carries on from the column the cursor was at.
  predicate Continues(from: int, key: Keystroke, lineStart: int) {
    if key.erases then from > lineStart && key.col == from - 1 && key.cursorAfter == from - 1 && key.value == ' '
    else key.col == from && key.cursorAfter == from + 1 && IsPredictable(key.value)
  }

  function CursorBefore(pending: seq<Keystroke>, base: int, i: nat): int
    requires i <= |pending|
  {
    if i == 0 then base else pending[i - 1].cursorAfter
  }

  ghost predicate Chain(pending: seq<Keystroke>, base: int, lineStart: int) {
    forall i :: 0 <= i < |pending| ==> Continues(CursorBefore(pending, base, i), pending[i], lineStart)
  }

  ghost predicate Ok(p: Predictor) {
    && (p.row.None? ==> p.pending == [])
    && (p.row.Some? ==> p.lineStart <= p.base)
    && Chain(p.pending, p.base, p.lineStart)
  }

  lemma {:induction false} StaysRightOfLineStart(pending: seq<Keystroke>, base: int, lineStart: int, i: nat)
    requires Chain(pending, base, lineStart) && lineStart <= base && i <= |pending|
    ensures CursorBefore(pending, base, i) >= lineStart
  {
    if i > 0 {
      StaysRightOfLineStart(pending, base, lineStart, i - 1);
      assert Continues(CursorBefore(pending, base, i - 1), pending[i - 1], lineStart);
    }
  }

  lemma ChainGrows(pending: seq<Keystroke>, base: int, lineStart: int, key: Keystroke)
    requires Chain(pending, base, lineStart)
    requires Continues(CursorBefore(pending, base, |pending|), key, lineStart)
    ensures Chain(pending + [key], base, lineStart)
  {
    var grown := pending + [key];
    forall i | 0 <= i < |grown| ensures Continues(CursorBefore(grown, base, i), grown[i], lineStart) {
      assert CursorBefore(grown, base, i) == CursorBefore(pending, base, i);
    }
  }

  lemma ChainCut(pending: seq<Keystroke>, base: int, lineStart: int, n: nat)
    requires Chain(pending, base, lineStart) && n <= |pending|
    ensures Chain(pending[n..], CursorBefore(pending, base, n), lineStart)
  {
    var rest, from := pending[n..], CursorBefore(pending, base, n);
    forall i | 0 <= i < |rest| ensures Continues(CursorBefore(rest, from, i), rest[i], lineStart) {
      assert CursorBefore(rest, from, i) == CursorBefore(pending, base, n + i);
    }
  }

  lemma AtCursorKeepsOk(p: Predictor, screen: Screen)
    requires Ok(p)
    ensures var q := AtCursor(p, screen);
      Ok(q) && q.row.Some? && CursorBefore(q.pending, q.base, |q.pending|) == NextCol(p, screen)
  {
  }

  lemma InsertKeepsOk(p: Predictor, c: char, screen: Screen, at: int)
    requires Ok(p) && IsPredictable(c)
    ensures Ok(Insert(p, c, screen, at).p)
  {
    AtCursorKeepsOk(p, screen);
    hide AtCursor;
    hide NextCol;
    var q := AtCursor(p, screen);
    ChainGrows(q.pending, q.base, q.lineStart, Keystroke(NextCol(p, screen), c, NextCol(p, screen) + 1, at, false));
  }

  lemma EraseKeepsOk(p: Predictor, screen: Screen, at: int)
    requires Ok(p)
    ensures Ok(Erase(p, screen, at).p)
  {
    AtCursorKeepsOk(p, screen);
    hide AtCursor;
    hide NextCol;
    var q, col := AtCursor(p, screen), NextCol(p, screen);
    if col > q.lineStart {
      ChainGrows(q.pending, q.base, q.lineStart, Keystroke(col - 1, ' ', col - 1, at, true));
    }
  }

  lemma {:induction false} TypeCharsKeepsOk(p: Predictor, data: string, screen: Screen, now: int)
    requires Ok(p)
    ensures Ok(TypeChars(p, data, screen, now))
    decreases |data|
  {
    if data != [] {
      if IsBackspace(data[0]) {
        EraseKeepsOk(p, screen, now);
      } else if IsPredictable(data[0]) {
        InsertKeepsOk(p, data[0], screen, now);
      }
      var typed := TypeChar(p, data[0], screen, now);
      if typed.ok {
        TypeCharsKeepsOk(typed.p, data[1..], screen, now);
      }
    }
  }

  ghost predicate Typable(keys: seq<Keystroke>) {
    forall i :: 0 <= i < |keys| ==> keys[i].erases || IsPredictable(keys[i].value)
  }

  lemma {:induction false} PlaceKeysKeepsOk(p: Predictor, keys: seq<Keystroke>, screen: Screen)
    requires Ok(p) && Typable(keys)
    ensures Ok(PlaceKeys(p, keys, screen))
    decreases |keys|
  {
    if keys != [] {
      EraseKeepsOk(p, screen, keys[0].at);
      if !keys[0].erases {
        InsertKeepsOk(p, keys[0].value, screen, keys[0].at);
      }
      var placed := if keys[0].erases then Erase(p, screen, keys[0].at)
          else Insert(p, keys[0].value, screen, keys[0].at);
      if placed.ok {
        PlaceKeysKeepsOk(placed.p, keys[1..], screen);
      }
    }
  }

  lemma ConfirmKeepsOk(p: Predictor, row: int, echoed: nat, now: int)
    requires Ok(p) && p.row == Some(row) && echoed < |p.pending|
    ensures Ok(Confirm(p, row, echoed, now))
  {
    ChainCut(p.pending, p.base, p.lineStart, echoed + 1);
    StaysRightOfLineStart(p.pending, p.base, p.lineStart, echoed + 1);
  }

  lemma UnechoedKeepsOk(p: Predictor, row: int, screen: Screen, now: int)
    requires Ok(p) && p.row == Some(row)
    ensures Ok(Unechoed(p, row, screen, now))
  {
    if p.tentative {
      PlaceKeysKeepsOk(TakenUp(p, row, screen), p.pending[EchoedBefore(p.pending, screen)..], screen);
    }
  }

  lemma ReconcileKeepsOk(p: Predictor, screen: Screen, now: int)
    requires Ok(p)
    ensures Ok(Reconcile(p, screen, now))
  {
    if p.row.Some? && p.pending != [] {
      var row := p.row.value;
      var echoed := if screen.cursorRow == row then FindEchoed(p.pending, row, screen) else -1;
      if echoed >= 0 {
        ConfirmKeepsOk(p, row, echoed, now);
      } else {
        UnechoedKeepsOk(p, row, screen, now);
      }
    }
  }

  lemma ExpireKeepsOk(p: Predictor, screen: Screen, now: int)
    requires Ok(p)
    ensures Ok(Expire(p, screen, now))
  {
    hide RoundTrip;
    hide Max;
    if p.pending != [] {
      if Matches(p, screen) {
        MatchingKeepsOk(p, screen);
      }
      hide Matches;
      hide Chain;
    }
  }

  lemma MatchingKeepsOk(p: Predictor, screen: Screen)
    requires Ok(p) && p.pending != [] && Matches(p, screen)
    ensures Ok(p.(base := screen.cursorCol, pending := []))
  {
    StaysRightOfLineStart(p.pending, p.base, p.lineStart, |p.pending|);
  }

  lemma ApplyKeepsOk(p: Predictor, e: Event)
    requires Ok(p)
    ensures Ok(Apply(p, e))
  {
    match e
    case Typed(data, screen, now) =>
      TypeCharsKeepsOk(if EndsLine(data) then p.(maskedRow := None, suspect := None) else p, data, screen, now);
    case Reconciled(screen, now) => ReconcileKeepsOk(p, screen, now);
    case Expired(screen, now) => ExpireKeepsOk(p, screen, now);
    case Forgotten =>
  }

  // In every run the guesses carry on from `base`, one from the other, and
  // never go left of where typing started on the row.
  lemma {:induction false} RunKeepsOk(p: Predictor, events: seq<Event>)
    requires Ok(p)
    ensures Ok(Run(p, events))
    ensures Run(p, events).row.Some? ==>
              forall i :: 0 <= i < |Run(p, events).pending|
                  ==> Run(p, events).pending[i].cursorAfter >= Run(p, events).lineStart
    decreases |events|
  {
    if events != [] {
      ApplyKeepsOk(p, events[0]);
      RunKeepsOk(Apply(p, events[0]), events[1..]);
    } else if p.row.Some? {
      forall i | 0 <= i < |p.pending| ensures p.pending[i].cursorAfter >= p.lineStart {
        StaysRightOfLineStart(p.pending, p.base, p.lineStart, i + 1);
      }
    }
  }

  // ----- what is shown is what an editor of one line would write -----

  datatype Key = Char(c: char) | Backspace

  datatype Line = Line(cells: map<int, char>, cursor: int)

  // A line editor that appends at its cursor and deletes before it.
  function Edited(line: Line, key: Key): Line {
    match key
    case Char(c) => Line(line.cells[line.cursor := c], line.cursor + 1)
    case Backspace => Line(line.cells[line.cursor - 1 := ' '], line.cursor - 1)
  }

  function Replayed(keys: seq<Key>, start: int): Line {
    if keys == [] then Line(map[], start) else Edited(Replayed(keys[..|keys| - 1], start), keys[|keys| - 1])
  }

  function KeyOf(key: Keystroke): Key {
    if key.erases then Backspace else Char(key.value)
  }

  function KeysOf(pending: seq<Keystroke>): (keys: seq<Key>)
    ensures |keys| == |pending| && forall i :: 0 <= i < |keys| ==> keys[i] == KeyOf(pending[i])
  {
    seq(|pending|, i requires 0 <= i < |pending| => KeyOf(pending[i]))
  }

  function Shown(cells: map<int, PredictedCell>): map<int, char> {
    map col | col in cells :: cells[col].shown
  }

  lemma {:induction false} CellsAreReplayed(pending: seq<Keystroke>, base: int, lineStart: int, now: int, stallMs: real)
    requires Chain(pending, base, lineStart)
    ensures Replayed(KeysOf(pending), base)
            == Line(Shown(CellsOf(pending, now, stallMs)), CursorBefore(pending, base, |pending|))
  {
    if pending == [] {
      assert Shown(map[]) == map[];
    } else {
      var n := |pending| - 1;
      var before, last := pending[..n], pending[n];
      ChainBefore(pending, base, lineStart, n);
      CellsAreReplayed(before, base, lineStart, now, stallMs);
      assert KeysOf(pending)[..n] == KeysOf(before);
      ShowsOneMore(CellsOf(before, now, stallMs), last.col,
                   PredictedCell(last.value, (now - last.at) as real > stallMs));
      assert Continues(CursorBefore(pending, base, n), last, lineStart);
    }
  }

  lemma ChainBefore(pending: seq<Keystroke>, base: int, lineStart: int, n: nat)
    requires Chain(pending, base, lineStart) && n <= |pending|
    ensures Chain(pending[..n], base, lineStart)
    ensures CursorBefore(pending[..n], base, n) == CursorBefore(pending, base, n)
  {
    forall i | 0 <= i < n ensures Continues(CursorBefore(pending[..n], base, i), pending[..n][i], lineStart) {
      assert CursorBefore(pending[..n], base, i) == CursorBefore(pending, base, i);
    }
  }

  lemma ShowsOneMore(cells: map<int, PredictedCell>, col: int, cell: PredictedCell)
    ensures Shown(cells[col := cell]) == Shown(cells)[col := cell.shown]
  {
  }

  // Whatever was typed, echoed or timed out before: the cells and the cursor
  // the view shows are what the editor writes replaying the pending keys.
  lemma ViewIsTheReplay(events: seq<Event>, now: int)
    ensures var p := Run(INITIAL, events); View(p, now).Some? ==> ShowsReplay(p, View(p, now).value)
  {
    RunKeepsOk(INITIAL, events);
    OkViewIsTheReplay(Run(INITIAL, events), now);
  }

  ghost predicate ShowsReplay(p: Predictor, view: PredictionView) {
    p.row == Some(view.row) && Line(Shown(view.cells), view.cursorCol) == Replayed(KeysOf(p.pending), p.base)
  }

  lemma OkViewIsTheReplay(p: Predictor, now: int)
    requires Ok(p)
    ensures View(p, now).Some? ==> ShowsReplay(p, View(p, now).value)
  {
    if View(p, now).Some? {
      CellsAreReplayed(p.pending, p.base, p.lineStart, now, Max(STALL_MS, 2.0 * RoundTrip(p)));
    }
  }

  // ----- the pending keys are the last ones typed -----

  function KeyTyped(c: char): Key {
    if IsBackspace(c) then Backspace else Char(c)
  }

  function KeysTyped(data: string): (keys: seq<Key>)
    ensures |keys| == |data| && forall i :: 0 <= i < |keys| ==> keys[i] == KeyTyped(data[i])
  {
    seq(|data|, i requires 0 <= i < |data| => KeyTyped(data[i]))
  }

  function AllTyped(events: seq<Event>): seq<Key> {
    if events == [] then []
    else (if events[0].Typed? then KeysTyped(events[0].data) else []) + AllTyped(events[1..])
  }

  predicate EndsWith(all: seq<Key>, part: seq<Key>) {
    |part| <= |all| && all[|all| - |part|..] == part
  }

  // The keys of `q` are the last of those of `p` and then `typed`.
  predicate Lasts(p: Predictor, typed: seq<Key>, q: Predictor) {
    EndsWith(KeysOf(p.pending) + typed, KeysOf(q.pending))
  }

  lemma AppendsOne(pending: seq<Keystroke>, key: Keystroke)
    ensures KeysOf(pending + [key]) == KeysOf(pending) + [KeyOf(key)]
  {
  }

  lemma {:induction false} TypeCharsAppends(p: Predictor, data: string, screen: Screen, now: int)
    ensures var q := TypeChars(p, data, screen, now);
            q.pending == [] || KeysOf(q.pending) == KeysOf(p.pending) + KeysTyped(data)
    decreases |data|
  {
    if data == [] {
      assert KeysTyped(data) == [];
    } else {
      var typed := TypeChar(p, data[0], screen, now);
      if typed.ok {
        TypeCharsAppends(typed.p, data[1..], screen, now);
        assert typed.p.pending != [];
        var n := |typed.p.pending| - 1;
        AppendsOne(p.pending, typed.p.pending[n]);
        assert KeysTyped(data) == [KeyTyped(data[0])] + KeysTyped(data[1..]);
        Associates(KeysOf(p.pending), [KeyTyped(data[0])], KeysTyped(data[1..]));
      }
    }
  }

  lemma {:induction false} PlaceKeysAppends(p: Predictor, keys: seq<Keystroke>, screen: Screen)
    ensures var q := PlaceKeys(p, keys, screen);
            q.pending == [] || KeysOf(q.pending) == KeysOf(p.pending) + KeysOf(keys)
    decreases |keys|
  {
    if keys == [] {
      assert KeysOf(keys) == [];
    } else {
      var placed := if keys[0].erases then Erase(p, screen, keys[0].at)
          else Insert(p, keys[0].value, screen, keys[0].at);
      if placed.ok {
        PlaceKeysAppends(placed.p, keys[1..], screen);
        AppendsOne(p.pending, placed.p.pending[|placed.p.pending| - 1]);
        assert KeysOf(keys) == [KeyOf(keys[0])] + KeysOf(keys[1..]);
        Associates(KeysOf(p.pending), [KeyOf(keys[0])], KeysOf(keys[1..]));
      }
    }
  }

  lemma UnechoedKeepsTheLast(p: Predictor, row: int, screen: Screen, now: int)
    ensures Lasts(p, [], Unechoed(p, row, screen, now))
  {
    if p.tentative {
      PlaceKeepsTheLast(p, row, screen);
    }
  }

  lemma ReconcileKeepsTheLast(p: Predictor, screen: Screen, now: int)
    ensures Lasts(p, [], Reconcile(p, screen, now))
  {
    hide Unechoed;
    hide Confirm;
    hide FindEchoed;
    hide Lasts;
    if p.row.Some? && p.pending != [] {
      var row := p.row.value;
      var echoed := if screen.cursorRow == row then FindEchoed(p.pending, row, screen) else -1;
      if echoed >= 0 {
        ConfirmKeepsTheLast(p, row, echoed, now);
      } else {
        UnechoedKeepsTheLast(p, row, screen, now);
      }
    } else {
      CutKeepsTheLast(p, p, 0);
    }
  }

  lemma ConfirmKeepsTheLast(p: Predictor, row: int, echoed: nat, now: int)
    requires echoed < |p.pending|
    ensures Lasts(p, [], Confirm(p, row, echoed, now))
  {
    hide Lasts;
    hide Sampled;
    CutKeepsTheLast(p, Confirm(p, row, echoed, now), echoed + 1);
  }

  lemma CutKeepsTheLast(p: Predictor, q: Predictor, n: nat)
    requires n <= |p.pending| && q.pending == p.pending[n..]
    ensures Lasts(p, [], q)
  {
    assert KeysOf(q.pending) == KeysOf(p.pending)[n..];
  }

  lemma PlaceKeepsTheLast(p: Predictor, row: int, screen: Screen)
    ensures Lasts(p, [], Place(p, row, screen))
  {
    var n, r := EchoedBefore(p.pending, screen), TakenUp(p, row, screen);
    PlaceKeysAppends(r, p.pending[n..], screen);
    assert KeysOf(p.pending[n..]) == KeysOf(p.pending)[n..];
    assert KeysOf(r.pending) == [];
  }

  lemma ApplyKeepsTheLast(p: Predictor, e: Event)
    ensures Lasts(p, AllTyped([e]), Apply(p, e))
  {
    match e
    case Typed(data, screen, now) =>
      assert AllTyped([e]) == KeysTyped(data);
      TypeCharsAppends(if EndsLine(data) then p.(maskedRow := None, suspect := None) else p, data, screen, now);
    case Reconciled(screen, now) => ReconcileKeepsTheLast(p, screen, now);
    case Expired(screen, now) =>
    case Forgotten =>
  }

  // In every run the pending keys are the last keys typed, in order: nothing
  // is guessed twice, invented or taken out of the middle.
  lemma {:induction false} PendingIsTheLastTyped(p: Predictor, events: seq<Event>)
    ensures Lasts(p, AllTyped(events), Run(p, events))
    decreases |events|
  {
    if events != [] {
      var q := Apply(p, events[0]);
      ApplyKeepsTheLast(p, events[0]);
      PendingIsTheLastTyped(q, events[1..]);
      LastsTwice(p, events, q, Run(q, events[1..]));
    }
  }

  lemma LastsTwice(p: Predictor, events: seq<Event>, q: Predictor, r: Predictor)
    requires events != [] && Lasts(p, AllTyped([events[0]]), q) && Lasts(q, AllTyped(events[1..]), r)
    ensures Lasts(p, AllTyped(events), r)
  {
    var first, rest := AllTyped([events[0]]), AllTyped(events[1..]);
    assert AllTyped([]) == [];
    assert AllTyped(events) == first + rest;
    Associates(KeysOf(p.pending), first, rest);
    LastOfLast(KeysOf(p.pending) + first, KeysOf(q.pending), rest, KeysOf(r.pending));
  }

  lemma LastOfLast(all: seq<Key>, some: seq<Key>, more: seq<Key>, last: seq<Key>)
    requires EndsWith(all, some) && EndsWith(some + more, last)
    ensures EndsWith(all + more, last)
  {
    var cut := |all| - |some|;
    assert (all + more)[cut..] == some + more;
    assert (all + more)[|all + more| - |last|..] == (some + more)[|some + more| - |last|..];
  }

  // ----- nothing is shown where typing does not echo -----

  // From column `start` of the row on, the line shows only the masking
  // character `m`, as far as the cursor got.
  ghost predicate Masks(screen: Screen, row: int, start: int, m: char) {
    screen.cursorRow == row ==>
      screen.cursorCol >= start && forall col :: start <= col < screen.cursorCol ==> screen.charAt(row, col) == m
  }

  ghost predicate NotTyping(pending: seq<Keystroke>, m: char) {
    forall i :: 0 <= i < |pending| ==> pending[i].erases || pending[i].value != m
  }

  ghost predicate Hidden(p: Predictor, row: int, start: int, m: char) {
    && Ok(p)
    && (p.row == Some(row) ==> !p.confirmed && p.lineStart >= start)
    && NotTyping(p.pending, m)
  }

  lemma {:induction false} TypeCharsKeepsHidden(p: Predictor, data: string, screen: Screen, now: int, row: int,
          start: int, m: char)
    requires Hidden(p, row, start, m) && Masks(screen, row, start, m) && (IsPredictable(m) ==> m !in data)
    ensures Hidden(TypeChars(p, data, screen, now), row, start, m)
    decreases |data|
  {
    if data != [] {
      if IsBackspace(data[0]) {
        EraseKeepsOk(p, screen, now);
      } else if IsPredictable(data[0]) {
        InsertKeepsOk(p, data[0], screen, now);
      }
      var typed := TypeChar(p, data[0], screen, now);
      if typed.ok {
        TypeCharsKeepsHidden(typed.p, data[1..], screen, now, row, start, m);
      }
    }
  }

  lemma {:induction false} PlaceKeysKeepsHidden(p: Predictor, keys: seq<Keystroke>, screen: Screen, row: int,
          start: int, m: char)
    requires Hidden(p, row, start, m) && Masks(screen, row, start, m) && Typable(keys) && NotTyping(keys, m)
    ensures Hidden(PlaceKeys(p, keys, screen), row, start, m)
    decreases |keys|
  {
    if keys != [] {
      EraseKeepsOk(p, screen, keys[0].at);
      if !keys[0].erases {
        InsertKeepsOk(p, keys[0].value, screen, keys[0].at);
      }
      var placed := if keys[0].erases then Erase(p, screen, keys[0].at)
          else Insert(p, keys[0].value, screen, keys[0].at);
      if placed.ok {
        PlaceKeysKeepsHidden(placed.p, keys[1..], screen, row, start, m);
      }
    }
  }

  // On a row that masks, only a backspace can look echoed.
  lemma OnlyErasesEcho(p: Predictor, screen: Screen, row: int, start: int, m: char, i: nat)
    requires Hidden(p, row, start, m) && Masks(screen, row, start, m)
    requires p.row == Some(row) && screen.cursorRow == row
    requires i < |p.pending| && EchoesAt(p.pending[i], row, screen)
    ensures p.pending[i].erases
  {
    var key := p.pending[i];
    assert Continues(CursorBefore(p.pending, p.base, i), key, p.lineStart);
    StaysRightOfLineStart(p.pending, p.base, p.lineStart, i);
    assert !key.erases ==> start <= key.col < screen.cursorCol;
  }

  lemma ConfirmKeepsHidden(p: Predictor, screen: Screen, now: int, row: int, start: int, m: char, echoed: nat)
    requires Hidden(p, row, start, m) && Masks(screen, row, start, m)
    requires p.row == Some(screen.cursorRow) && echoed < |p.pending|
             && EchoesAt(p.pending[echoed], screen.cursorRow, screen)
    ensures Hidden(Confirm(p, screen.cursorRow, echoed, now), row, start, m)
  {
    ConfirmKeepsOk(p, screen.cursorRow, echoed, now);
    if screen.cursorRow == row {
      OnlyErasesEcho(p, screen, row, start, m, echoed);
    }
  }

  lemma UnechoedKeepsHidden(p: Predictor, on: int, screen: Screen, now: int, row: int, start: int, m: char)
    requires Hidden(p, row, start, m) && Masks(screen, row, start, m) && p.row == Some(on)
    ensures Hidden(Unechoed(p, on, screen, now), row, start, m)
  {
    UnechoedKeepsOk(p, on, screen, now);
    if p.tentative {
      PlaceKeysKeepsHidden(TakenUp(p, on, screen), p.pending[EchoedBefore(p.pending, screen)..], screen, row, start, m);
    }
  }

  lemma ReconcileKeepsHidden(p: Predictor, screen: Screen, now: int, row: int, start: int, m: char)
    requires Hidden(p, row, start, m) && Masks(screen, row, start, m)
    ensures Hidden(Reconcile(p, screen, now), row, start, m)
  {
    if p.row.Some? && p.pending != [] {
      var on := p.row.value;
      var echoed := if screen.cursorRow == on then FindEchoed(p.pending, on, screen) else -1;
      if echoed >= 0 {
        ConfirmKeepsHidden(p, screen, now, row, start, m, echoed);
      } else {
        UnechoedKeepsHidden(p, on, screen, now, row, start, m);
      }
    }
  }

  ghost predicate AtMaskingPrompt(e: Event, row: int, start: int, m: char) {
    match e
    case Typed(data, screen, _) => Masks(screen, row, start, m) && (IsPredictable(m) ==> m !in data)
    case Reconciled(screen, _) => Masks(screen, row, start, m)
    case Expired(screen, _) => Masks(screen, row, start, m)
    case Forgotten => true
  }

  lemma ApplyKeepsHidden(p: Predictor, e: Event, row: int, start: int, m: char)
    requires Hidden(p, row, start, m) && AtMaskingPrompt(e, row, start, m)
    ensures Hidden(Apply(p, e), row, start, m)
  {
    match e
    case Typed(data, screen, now) =>
      TypeCharsKeepsHidden(if EndsLine(data) then p.(maskedRow := None, suspect := None)
                           else p, data, screen, now, row, start, m);
    case Reconciled(screen, now) => ReconcileKeepsHidden(p, screen, now, row, start, m);
    case Expired(screen, now) => ExpireKeepsOk(p, screen, now);
    case Forgotten =>
  }

  lemma {:induction false} RunKeepsHidden(p: Predictor, events: seq<Event>, row: int, start: int, m: char)
    requires Hidden(p, row, start, m)
    requires forall i :: 0 <= i < |events| ==> AtMaskingPrompt(events[i], row, start, m)
    ensures Hidden(Run(p, events), row, start, m)
    decreases |events|
  {
    if events != [] {
      ApplyKeepsHidden(p, events[0], row, start, m);
      RunKeepsHidden(Apply(p, events[0]), events[1..], row, start, m);
    }
  }

  // However typing, backspacing, checking and giving up interleave, and
  // whatever other rows show, no guess is shown on a row that masks what is
  // typed with a character the user does not type. Any earlier run will do
  // in which the row was not typed on.
  lemma NothingShownWhereMasked(before: seq<Event>, events: seq<Event>, row: int, start: int, m: char, now: int)
    requires Run(INITIAL, before).row != Some(row)
    requires NotTyping(Run(INITIAL, before).pending, m)
    requires forall i :: 0 <= i < |events| ==> AtMaskingPrompt(events[i], row, start, m)
    ensures var view := View(Run(Run(INITIAL, before), events), now); view.Some? ==> view.value.row != row
  {
    RunKeepsOk(INITIAL, before);
    RunKeepsHidden(Run(INITIAL, before), events, row, start, m);
  }

  // Keys that are not echoed at all leave the cursor where the prompt ended.
  ghost predicate AtSilentPrompt(e: Event, row: int, start: int) {
    !e.Forgotten? && e.screen.cursorRow == row ==> e.screen.cursorCol == start
  }

  // So nothing is shown at a prompt that echoes nothing, whatever was typed,
  // echoed and shown on other rows before and in between.
  lemma NothingShownWhereSilent(before: seq<Event>, events: seq<Event>, row: int, start: int, now: int)
    requires Run(INITIAL, before).row != Some(row)
    requires forall i :: 0 <= i < |events| ==> AtSilentPrompt(events[i], row, start)
    ensures var view := View(Run(Run(INITIAL, before), events), now); view.Some? ==> view.value.row != row
  {
    forall i | 0 <= i < |events| ensures AtMaskingPrompt(events[i], row, start, '\n') {
      assert AtSilentPrompt(events[i], row, start);
    }
    RunKeepsOk(INITIAL, before);
    var p := Run(INITIAL, before);
    forall i | 0 <= i < |p.pending| ensures p.pending[i].erases || p.pending[i].value != '\n' {
      assert Continues(CursorBefore(p.pending, p.base, i), p.pending[i], p.lineStart);
    }
    NothingShownWhereMasked(before, events, row, start, '\n', now);
  }

  // ----- nothing is shown before a key was echoed -----

  // The screen shows a key typed on the row echoed as that key, on a row not
  // taken for masked.
  ghost predicate ShowsAnEcho(p: Predictor, e: Event, row: int) {
    && e.Reconciled? && p.row == Some(row) && e.screen.cursorRow == row && p.maskedRow != Some(row)
    && exists i :: 0 <= i < |p.pending| && !p.pending[i].erases && EchoesAt(p.pending[i], row, e.screen)
         && p.suspect != Some(Suspect(row, p.pending[i].value))
  }

  lemma {:induction false} TypeCharsConfirmNothing(p: Predictor, data: string, screen: Screen, now: int)
    ensures var q := TypeChars(p, data, screen, now); q.confirmed && q.row.Some? ==> p.confirmed && p.row == q.row
    decreases |data|
  {
    if data != [] {
      var typed := TypeChar(p, data[0], screen, now);
      if typed.ok {
        TypeCharsConfirmNothing(typed.p, data[1..], screen, now);
      }
    }
  }

  lemma {:induction false} PlaceKeysConfirmNothing(p: Predictor, keys: seq<Keystroke>, screen: Screen)
    ensures var q := PlaceKeys(p, keys, screen); q.confirmed && q.row.Some? ==> p.confirmed && p.row == q.row
    decreases |keys|
  {
    if keys != [] {
      var placed :=
        if keys[0].erases then Erase(p, screen, keys[0].at) else Insert(p, keys[0].value, screen, keys[0].at);
      if placed.ok {
        PlaceKeysConfirmNothing(placed.p, keys[1..], screen);
      }
    }
  }

  lemma UnechoedConfirmsNothing(p: Predictor, row: int, screen: Screen, now: int)
    requires p.row == Some(row)
    ensures var q := Unechoed(p, row, screen, now); q.confirmed && q.row.Some? ==> p.confirmed && p.row == q.row
  {
    if p.tentative {
      PlaceKeysConfirmNothing(TakenUp(p, row, screen), p.pending[EchoedBefore(p.pending, screen)..], screen);
    }
  }

  lemma ReconcileConfirmsByEcho(p: Predictor, screen: Screen, now: int)
    ensures var q := Reconcile(p, screen, now);
            q.confirmed && q.row.Some? ==>
              (p.confirmed && p.row == q.row) || ShowsAnEcho(p, Reconciled(screen, now), q.row.value)
  {
    hide Unechoed;
    if p.row.Some? && p.pending != [] {
      var row := p.row.value;
      var echoed := if screen.cursorRow == row then FindEchoed(p.pending, row, screen) else -1;
      if echoed >= 0 {
        assert EchoesAt(p.pending[echoed], row, screen);
      } else {
        UnechoedConfirmsNothing(p, row, screen, now);
      }
    }
  }

  lemma StepConfirmsByEcho(p: Predictor, e: Event)
    ensures var q := Apply(p, e);
            q.confirmed && q.row.Some? ==> (p.confirmed && p.row == q.row) || ShowsAnEcho(p, e, q.row.value)
  {
    match e
    case Typed(data, screen, now) =>
      TypeCharsConfirmNothing(if EndsLine(data) then p.(maskedRow := None, suspect := None) else p, data, screen, now);
    case Reconciled(screen, now) => ReconcileConfirmsByEcho(p, screen, now);
    case Expired(screen, now) =>
    case Forgotten =>
  }

  lemma {:induction false} RunLast(p: Predictor, events: seq<Event>)
    requires events != []
    ensures Run(p, events) == Apply(Run(p, events[..|events| - 1]), events[|events| - 1])
    decreases |events|
  {
    hide Apply;
    if |events| > 1 {
      RunLast(Apply(p, events[0]), events[1..]);
      assert events[1..][..|events| - 2] == events[..|events| - 1][1..];
    }
  }

  // The run was on the row, with an echo seen, after each event from `k` on.
  ghost predicate StaysSince(events: seq<Event>, k: nat, row: int) {
    forall j :: k < j <= |events| ==> Run(INITIAL, events[..j]).row == Some(row) && Run(INITIAL, events[..j]).confirmed
  }

  lemma {:induction false} EchoedSince(events: seq<Event>) returns (k: nat)
    requires Run(INITIAL, events).confirmed && Run(INITIAL, events).row.Some?
    ensures k < |events| && ShowsAnEcho(Run(INITIAL, events[..k]), events[k], Run(INITIAL, events).row.value)
    ensures StaysSince(events, k, Run(INITIAL, events).row.value)
    decreases |events|
  {
    hide Apply;
    hide ShowsAnEcho;
    var n, row := |events| - 1, Run(INITIAL, events).row.value;
    RunLast(INITIAL, events);
    StepConfirmsByEcho(Run(INITIAL, events[..n]), events[n]);
    assert events[..n + 1] == events;
    if ShowsAnEcho(Run(INITIAL, events[..n]), events[n], row) {
      k := n;
    } else {
      k := EchoedSince(events[..n]);
      assert forall j :: 0 <= j <= n ==> events[..n][..j] == events[..j];
    }
  }

  // In every run, a guess is shown only on a row where the screen showed a
  // key typed there echoed, and where typing was not started over since.
  lemma NothingShownBeforeAnEcho(events: seq<Event>, now: int)
    ensures var view := View(Run(INITIAL, events), now);
            view.Some? ==>
              exists k :: 0 <= k < |events| && ShowsAnEcho(Run(INITIAL, events[..k]), events[k], view.value.row)
                          && StaysSince(events, k, view.value.row)
  {
    if View(Run(INITIAL, events), now).Some? {
      var k := EchoedSince(events);
    }
  }

  // ----- one row only -----

  ghost predicate OnRow(e: Event, row: int) {
    !e.Forgotten? ==> e.screen.cursorRow == row
  }

  ghost predicate Within(p: Predictor, row: int) {
    p.row == None || p.row == Some(row)
  }
}
