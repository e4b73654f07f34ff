// The object that keeps the guesses (src/lib/predictiveEcho.ts): its methods
// update its fields as the state machine of PredictiveEcho says.
module EchoPredictors {
  import opened Sequences
  import opened PredictiveEcho
  import Echo = PredictiveEcho

  class EchoPredictor {
    var row: Option<int>
    var lineStart: int
    var base: int
    var pending: seq<Keystroke>
    var confirmed: bool
    var doubtSince: Option<int>
    var srtt: Option<real>
    var maskedRow: Option<int>
    var tentative: bool
    var suspect: Option<Suspect>

    function State(): Predictor
      reads this
    {
      Predictor(row, lineStart, base, pending, confirmed, doubtSince, srtt, maskedRow, tentative, suspect)
    }

    constructor ()
      ensures State() == INITIAL
    {
      row, lineStart, base, pending, confirmed := None, 0, 0, [], false;
      doubtSince, srtt, maskedRow, tentative, suspect := None, None, None, false, None;
    }

    method Clear()
      modifies this
      ensures State() == Echo.Clear(old(State()))
    {
      row, pending, confirmed, doubtSince := None, [], false, None;
    }

    method Reset()
      modifies this
      ensures State() == Echo.Reset(old(State()))
    {
      Clear();
      tentative := true;
    }

    method NextCol(screen: Screen) returns (col: int)
      modifies this
      ensures State() == Echo.AtCursor(old(State()), screen)
      ensures col == Echo.NextCol(old(State()), screen)
    {
      if pending != [] {
        return pending[|pending| - 1].cursorAfter;
      }
      if row != Some(screen.cursorRow) {
        Clear();
        row := Some(screen.cursorRow);
        lineStart := screen.cursorCol;
      }
      lineStart := Min(lineStart, screen.cursorCol);
      base := screen.cursorCol;
      doubtSince := None;
      return screen.cursorCol;
    }

    method ValueAt(col: int, screen: Screen) returns (value: char)
      ensures value == Echo.ValueAt(State(), col, screen)
    {
      var i := |pending|;
      assert pending[..i] == pending;
      while i > 0
        invariant 0 <= i <= |pending| && GuessAt(pending[..i], col) == GuessAt(pending, col)
      {
        assert pending[..i][..i - 1] == pending[..i - 1];
        if pending[i - 1].col == col {
          return pending[i - 1].value;
        }
        i := i - 1;
      }
      return screen.charAt(if row.Some? then row.value else screen.cursorRow, col);
    }

    method Insert(c: char, screen: Screen, at: int) returns (ok: bool)
      modifies this
      ensures Tried(ok, State()) == Echo.Insert(old(State()), c, screen, at)
    {
      var col := NextCol(screen);
      if col >= screen.cols - 1 {
        return false;
      }
      var current := ValueAt(col, screen);
      if current != ' ' && current != c {
        return false;
      }
      pending := pending + [Keystroke(col, c, col + 1, at, false)];
      return true;
    }

    method Erase(screen: Screen, at: int) returns (ok: bool)
      modifies this
      ensures Tried(ok, State()) == Echo.Erase(old(State()), screen, at)
    {
      var col := NextCol(screen);
      if col <= lineStart {
        return false;
      }
      pending := pending + [Keystroke(col - 1, ' ', col - 1, at, true)];
      return true;
    }

    method Type(data: string, screen: Screen, now: int)
      modifies this
      ensures State() == Echo.Type(old(State()), data, screen, now)
    {
      if EndsLine(data) {
        maskedRow := None;
        suspect := None;
      }
      for i := 0 to |data|
        invariant Echo.TypeChars(State(), data[i..], screen, now) == Echo.Type(old(State()), data, screen, now)
      {
        assert data[i..][1..] == data[i + 1..];
        var typed := false;
        if IsBackspace(data[i]) {
          typed := Erase(screen, now);
        } else if IsPredictable(data[i]) {
          typed := Insert(data[i], screen, now);
        }
        if !typed {
          Reset();
          return;
        }
      }
    }

    // Counts down to the largest number of first guesses that end where the
    // cursor is.
    method EchoedBefore(screen: Screen) returns (count: nat)
      ensures count == Echo.EchoedBefore(pending, screen)
    {
      hide TypedFirst;
      hide ShownFrom;
      var typed := Min(TypedFirst(pending), screen.cursorCol);
      count := if typed < 0 then 0 else typed;
      while count > 0
        invariant count <= |pending|
        invariant ShownBefore(pending, screen, count) == Echo.EchoedBefore(pending, screen)
      {
        if ShownFrom(pending[..count], screen, screen.cursorCol - count) {
          return;
        }
        count := count - 1;
      }
    }

    method Place(row0: int, screen: Screen)
      modifies this
      ensures State() == Echo.Place(old(State()), row0, screen)
    {
      var other := EchoedAs(pending, row0, screen);
      if other.Some? {
        suspect := Some(Suspect(row0, other.value));
      }
      var shown := EchoedBefore(screen);
      var keys := pending[shown..];
      pending := [];
      // Off its row the predictor forgets which one it was on.
      if screen.cursorRow != row0 {
        row := None;
      }
      for i := 0 to |keys|
        invariant Echo.PlaceKeys(State(), keys[i..], screen) == Echo.Place(old(State()), row0, screen)
      {
        assert keys[i..][1..] == keys[i + 1..];
        var placed;
        if keys[i].erases {
          placed := Erase(screen, keys[i].at);
        } else {
          placed := Insert(keys[i].value, screen, keys[i].at);
        }
        if !placed {
          Reset();
          return;
        }
      }
    }

    method Reconcile(screen: Screen, now: int)
      modifies this
      ensures State() == Echo.Reconcile(old(State()), screen, now)
    {
      if row.None? || pending == [] {
        return;
      }
      var row0 := row.value;
      var echoed := if screen.cursorRow == row0 then FindEchoed(pending, row0, screen) else -1;
      if echoed == -1 {
        if tentative {
          Place(row0, screen);
          return;
        }
        if EchoedAs(pending, row0, screen).Some? {
          Clear();
          maskedRow := Some(row0);
          return;
        }
        // Only a doubt, with the time it began: the shell may be in the middle
        // of drawing.
        var waiting := screen.cursorRow == row0 && screen.cursorCol == base;
        doubtSince := if waiting then None else if doubtSince.Some? then doubtSince else Some(now);
        return;
      }
      var key := pending[echoed];
      srtt := Sampled(srtt, now - key.at);
      var masked := maskedRow == Some(row0) || suspect == Some(Suspect(row0, key.value));
      if !key.erases && !masked {
        confirmed := true;
      }
      tentative := false;
      doubtSince := None;
      base := key.cursorAfter;
      pending := pending[echoed + 1..];
    }

    method Expire(screen: Screen, now: int)
      modifies this
      ensures State() == Echo.Expire(old(State()), screen, now)
    {
      if doubtSince.Some? && now - doubtSince.value > DOUBT_MS {
        Reset();
        return;
      }
      if pending == [] || (now - pending[0].at) as real <= Max(TIMEOUT_MS, 4.0 * RoundTrip(State())) {
        return;
      }
      if Matches(State(), screen) {
        // The guesses hold, though no key was seen echoed: a key was taken back.
        base := screen.cursorCol;
        pending := [];
      } else {
        Clear();
      }
      tentative := false;
    }

    method View(now: int) returns (view: Option<PredictionView>)
      ensures view == Echo.View(State(), now)
    {
      if row.None? || !confirmed || tentative || doubtSince.Some? || pending == [] {
        return None;
      }
      var stallMs := Max(STALL_MS, 2.0 * RoundTrip(State()));
      var cells: map<int, PredictedCell> := map[];
      for i := 0 to |pending|
        invariant cells == CellsOf(pending[..i], now, stallMs)
      {
        var key := pending[i];
        assert pending[..i + 1][..i] == pending[..i] && pending[..i + 1][i] == key;
        cells := cells[key.col := PredictedCell(key.value, (now - key.at) as real > stallMs)];
      }
      assert pending[..|pending|] == pending;
      return Some(PredictionView(row.value, cells, pending[|pending| - 1].cursorAfter));
    }
  }
}
