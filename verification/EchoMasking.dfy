// Rows taken for masked (src/lib/predictiveEcho.ts): what has a row taken for
// one, and for how long nothing typed on it is shown.
module EchoMasking {
  import opened Sequences
  import opened PredictiveEcho
  import opened EchoProofs

  // ----- a row taken for masked -----

  ghost predicate Muted(p: Predictor, row: int) {
    Within(p, row) && p.maskedRow == Some(row) && !p.confirmed && (p.row.None? ==> p.pending == [])
  }

  lemma {:induction false} TypeCharsKeepsMuted(p: Predictor, data: string, screen: Screen, now: int)
    requires Muted(p, screen.cursorRow)
    ensures Muted(TypeChars(p, data, screen, now), screen.cursorRow)
    decreases |data|
  {
    if data != [] {
      var typed := TypeChar(p, data[0], screen, now);
      if typed.ok {
        TypeCharsKeepsMuted(typed.p, data[1..], screen, now);
      }
    }
  }

  lemma {:induction false} PlaceKeysKeepsMuted(p: Predictor, keys: seq<Keystroke>, screen: Screen)
    requires Muted(p, screen.cursorRow)
    ensures Muted(PlaceKeys(p, keys, screen), screen.cursorRow)
    decreases |keys|
  {
    if keys != [] {
      var placed := if keys[0].erases then Erase(p, screen, keys[0].at)
          else Insert(p, keys[0].value, screen, keys[0].at);
      if placed.ok {
        PlaceKeysKeepsMuted(placed.p, keys[1..], screen);
      }
    }
  }

  // A key echoed as another one where guesses are not tentative gives the row up.
  lemma MaskedEchoMutes(p: Predictor, screen: Screen, now: int, row: int)
    requires p.row == Some(row) && !p.tentative && screen.cursorRow == row
    requires FindEchoed(p.pending, row, screen) == -1
    requires exists i :: 0 <= i < |p.pending| && Differs(p.pending[i], row, screen)
    ensures Muted(Reconcile(p, screen, now), row) && Reconcile(p, screen, now).pending == []
  {
    EchoedAsFindsAny(p.pending, row, screen);
  }

  // And then whatever the row goes on to show, and whatever is typed that
  // does not end the line, nothing on it is shown.
  lemma {:induction false} MutedRowStaysMuted(p: Predictor, events: seq<Event>, row: int, now: int)
    requires Muted(p, row)
    requires forall i :: 0 <= i < |events| ==> OnRow(events[i], row) && (events[i].Typed? ==> !EndsLine(events[i].data))
    ensures Muted(Run(p, events), row) && View(Run(p, events), now).None?
    decreases |events|
  {
    if events != [] {
      var e := events[0];
      assert OnRow(e, row);
      match e {
        case Typed(data, screen, at) => TypeCharsKeepsMuted(p, data, screen, at);
        case Reconciled(screen, at) =>
          PlaceKeysKeepsMuted(TakenUp(p, row, screen), p.pending[EchoedBefore(p.pending, screen)..], screen);
        case Expired(screen, at) =>
        case Forgotten =>
      }
      MutedRowStaysMuted(Apply(p, e), events[1..], row, now);
    }
  }

  // ----- wherever the cursor goes -----

  // The row is the one remembered as masked, and no echo counts on it.
  predicate MutedOn(p: Predictor, row: int) {
    p.maskedRow == Some(row) && (p.row == Some(row) ==> !p.confirmed) && (p.row.None? ==> p.pending == [])
  }

  lemma {:induction false} TypeCharsKeepsMutedOn(p: Predictor, data: string, screen: Screen, now: int, row: int)
    requires MutedOn(p, row)
    ensures MutedOn(TypeChars(p, data, screen, now), row)
    decreases |data|
  {
    if data != [] {
      var typed := TypeChar(p, data[0], screen, now);
      if typed.ok {
        TypeCharsKeepsMutedOn(typed.p, data[1..], screen, now, row);
      }
    }
  }

  lemma {:induction false} PlaceKeysKeepsMutedOn(p: Predictor, keys: seq<Keystroke>, screen: Screen, row: int)
    requires MutedOn(p, row)
    ensures MutedOn(PlaceKeys(p, keys, screen), row)
    decreases |keys|
  {
    if keys != [] {
      var placed := if keys[0].erases then Erase(p, screen, keys[0].at)
          else Insert(p, keys[0].value, screen, keys[0].at);
      if placed.ok {
        PlaceKeysKeepsMutedOn(placed.p, keys[1..], screen, row);
      }
    }
  }

  // The event has another row taken for masked: a key typed there, with the
  // guesses not tentative, is echoed as another character and none as typed.
  predicate MasksAnother(p: Predictor, e: Event, row: int) {
    && e.Reconciled? && p.row == Some(e.screen.cursorRow) && p.row != Some(row) && !p.tentative
    && FindEchoed(p.pending, e.screen.cursorRow, e.screen) == -1
    && EchoedAs(p.pending, e.screen.cursorRow, e.screen).Some?
  }

  predicate EndsTheLine(e: Event) {
    e.Typed? && EndsLine(e.data)
  }

  lemma ReconcileKeepsMutedOn(p: Predictor, screen: Screen, now: int, row: int)
    requires MutedOn(p, row) && !MasksAnother(p, Reconciled(screen, now), row)
    ensures MutedOn(Reconcile(p, screen, now), row)
  {
    if p.row.Some? && p.pending != [] {
      var own := p.row.value;
      PlaceKeysKeepsMutedOn(TakenUp(p, own, screen), p.pending[EchoedBefore(p.pending, screen)..], screen, row);
      hide PlaceKeys;
      hide EchoedBefore;
    }
  }

  // One event takes the memory of the masked row away exactly when it ends
  // the line or masks another row.
  lemma MaskedRowIsForgottenExactlyWhen(p: Predictor, e: Event, row: int)
    requires MutedOn(p, row)
    ensures MutedOn(Apply(p, e), row) <==> !EndsTheLine(e) && !MasksAnother(p, e, row)
  {
    match e {
      case Typed(data, screen, at) =>
        if EndsLine(data) {
          TypeCharsForgets(p.(maskedRow := None, suspect := None), data, screen, at);
        } else {
          TypeCharsKeepsMutedOn(p, data, screen, at, row);
        }
      case Reconciled(screen, at) =>
        if !MasksAnother(p, e, row) {
          ReconcileKeepsMutedOn(p, screen, at, row);
        }
      case Expired(screen, at) =>
      case Forgotten =>
    }
  }

  lemma {:induction false} TypeCharsForgets(p: Predictor, data: string, screen: Screen, now: int)
    ensures TypeChars(p, data, screen, now).maskedRow == p.maskedRow
    decreases |data|
  {
    if data != [] {
      var typed := TypeChar(p, data[0], screen, now);
      if typed.ok {
        TypeCharsForgets(typed.p, data[1..], screen, now);
      }
    }
  }

  // Wherever the cursor goes and whatever is typed there, nothing is shown on
  // a masked row, coming back to it included, until the line is ended or
  // another row is taken for masked.
  lemma {:induction false} MaskedRowStaysHidden(p: Predictor, events: seq<Event>, row: int, now: int)
    requires MutedOn(p, row)
    requires forall k :: 0 <= k < |events| ==> !EndsTheLine(events[k])
    requires forall k :: 0 <= k < |events| ==> !MasksAnother(Run(p, events[..k]), events[k], row)
    ensures MutedOn(Run(p, events), row)
    ensures View(Run(p, events), now).Some? ==> View(Run(p, events), now).value.row != row
    decreases |events|
  {
    hide MasksAnother;
    hide Apply;
    if events != [] {
      var rest, q := events[1..], Apply(p, events[0]);
      assert events[..0] == [];
      MaskedRowIsForgottenExactlyWhen(p, events[0], row);
      forall k | 0 <= k < |rest| ensures !EndsTheLine(rest[k]) && !MasksAnother(Run(q, rest[..k]), rest[k], row) {
        assert rest[k] == events[k + 1] && events[..k + 1] == [events[0]] + rest[..k];
        assert events[..k + 1][1..] == rest[..k];
      }
      MaskedRowStaysHidden(q, rest, row, now);
    }
  }

  // ----- another row in between -----

  // A terminal that shows `c` at the start of the row and nothing else.
  function Showing(row: int, col: int, c: char): Screen {
    Screen(row, col, 80, (r, at) => if r == row && at == 0 then c else ' ')
  }

  lemma OneKeyTyped(p: Predictor, c: char, screen: Screen, now: int)
    requires p.pending == [] && IsPredictable(c) && screen.cursorCol < screen.cols - 1
    requires screen.charAt(screen.cursorRow, screen.cursorCol) == ' '
    ensures var col := screen.cursorCol;
      Type(p, [c], screen, now)
      == AtCursor(p, screen).(pending := [Keystroke(col, c, col + 1, now, false)])
  {
    var tried := TypeChar(p, c, screen, now);
    assert [c][0] == c && [c][1..] == [];
    assert ValueAt(AtCursor(p, screen), screen.cursorCol, screen) == ' ';
    assert TypeChars(tried.p, [], screen, now) == tried.p;
  }

  lemma OneKeyMasked(p: Predictor)
    requires p == INITIAL.(maskedRow := Some(0))
    ensures var q := Reconcile(Type(p, "a", Showing(1, 0, ' '), 0), Showing(1, 1, '*'), 0);
      q.pending == [] && q.row.None? && !q.tentative && q.suspect.None? && q.maskedRow == Some(1)
  {
    var a := Keystroke(0, 'a', 1, 0, false);
    OneKeyTyped(p, 'a', Showing(1, 0, ' '), 0);
    var typed := Type(p, "a", Showing(1, 0, ' '), 0);
    assert typed.pending == [a] && typed.row == Some(1) && !typed.tentative;
    assert [a][1..] == [] && FindEchoed([a], 1, Showing(1, 1, '*')) == -1;
  }

  // Row 0 is masked; row 1 masks a key in between; and back on row 0, where
  // one key is echoed, the next one is shown.
  lemma OnlyOneRowIsRemembered()
    ensures var p := INITIAL.(maskedRow := Some(0));
      var events := [Typed("a", Showing(1, 0, ' '), 0), Reconciled(Showing(1, 1, '*'), 0),
                     Typed("b", Showing(0, 0, ' '), 0), Reconciled(Showing(0, 1, 'b'), 0),
                     Typed("c", Showing(0, 1, 'b'), 0)];
      && MutedOn(p, 0)
      && View(Run(p, events), 0).Some? && View(Run(p, events), 0).value.row == 0
  {
    hide Type;
    hide Reconcile;
    hide View;
    hide Showing;
    hide Run;
    var p := INITIAL.(maskedRow := Some(0));
    var events := [Typed("a", Showing(1, 0, ' '), 0), Reconciled(Showing(1, 1, '*'), 0),
                   Typed("b", Showing(0, 0, ' '), 0), Reconciled(Showing(0, 1, 'b'), 0),
                   Typed("c", Showing(0, 1, 'b'), 0)];
    OneKeyMasked(p);
    var p2 := Reconcile(Type(p, "a", Showing(1, 0, ' '), 0), Showing(1, 1, '*'), 0);
    OneKeyEchoed(p2);
    var p4 := Reconcile(Type(p2, "b", Showing(0, 0, ' '), 0), Showing(0, 1, 'b'), 0);
    FiveEvents(p, events, Type(p, "a", Showing(1, 0, ' '), 0), p2, Type(p2, "b", Showing(0, 0, ' '), 0), p4,
               Type(p4, "c", Showing(0, 1, 'b'), 0));
  }

  // On a new row that is not masked one key echoed is enough.
  lemma OneKeyEchoed(p: Predictor)
    requires p.pending == [] && p.row.None? && !p.tentative && p.suspect.None? && p.maskedRow == Some(1)
    ensures var q := Reconcile(Type(p, "b", Showing(0, 0, ' '), 0), Showing(0, 1, 'b'), 0);
      var view := View(Type(q, "c", Showing(0, 1, 'b'), 0), 0);
      view.Some? && view.value.row == 0
  {
    var b := Keystroke(0, 'b', 1, 0, false);
    OneKeyTyped(p, 'b', Showing(0, 0, ' '), 0);
    var typed := Type(p, "b", Showing(0, 0, ' '), 0);
    assert typed.pending == [b] && typed.row == Some(0) && FindEchoed([b], 0, Showing(0, 1, 'b')) == 0;
    var q := Reconcile(typed, Showing(0, 1, 'b'), 0);
    assert q.confirmed && q.pending == [] && q.row == Some(0) && !q.tentative;
    OneKeyTyped(q, 'c', Showing(0, 1, 'b'), 0);
  }

  lemma FiveEvents(p: Predictor, events: seq<Event>, p1: Predictor, p2: Predictor, p3: Predictor, p4: Predictor,
          p5: Predictor)
    requires |events| == 5 && p1 == Apply(p, events[0]) && p2 == Apply(p1, events[1]) && p3 == Apply(p2, events[2])
    requires p4 == Apply(p3, events[3]) && p5 == Apply(p4, events[4])
    ensures Run(p, events) == p5
  {
    hide Apply;
    assert events[1..][1..] == events[2..] && events[2..][1..] == events[3..];
    assert events[3..][1..] == events[4..] && events[4..][1..] == [];
    assert Run(p5, []) == p5 && Run(p4, events[4..]) == p5 && Run(p3, events[3..]) == p5;
    assert Run(p2, events[2..]) == p5 && Run(p1, events[1..]) == p5;
  }
}
