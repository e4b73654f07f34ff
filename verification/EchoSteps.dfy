// What each call on the predictor does, told by the keys, the screen and the
// clock alone (src/lib/predictiveEcho.ts).
module EchoSteps {
  import opened Sequences
  import opened PredictiveEcho
  import opened EchoProofs

  // ----- what a column will hold -----

  // The last guess for the column, or what the screen has there without one.
  predicate Holds(pending: seq<Keystroke>, row: int, col: int, screen: Screen, value: char) {
    if exists i :: 0 <= i < |pending| && pending[i].col == col
    then exists i :: 0 <= i < |pending| && IsLastFor(pending, i, col) && pending[i].value == value
    else screen.charAt(row, col) == value
  }

  predicate IsLastFor(pending: seq<Keystroke>, i: nat, col: int)
    requires i < |pending|
  {
    pending[i].col == col && forall j :: i < j < |pending| ==> pending[j].col != col
  }

  lemma {:induction false} GuessAtIsLast(pending: seq<Keystroke>, col: int) returns (i: int)
    ensures -1 <= i < |pending|
    ensures i == -1 ==> GuessAt(pending, col) == None && forall j :: 0 <= j < |pending| ==> pending[j].col != col
    ensures i >= 0 ==> IsLastFor(pending, i, col) && GuessAt(pending, col) == Some(pending[i].value)
  {
    if pending == [] {
      i := -1;
    } else if pending[|pending| - 1].col == col {
      i := |pending| - 1;
    } else {
      i := GuessAtIsLast(pending[..|pending| - 1], col);
    }
  }

  lemma ValueAtHolds(p: Predictor, row: int, col: int, screen: Screen, value: char)
    requires row == if p.row.Some? then p.row.value else screen.cursorRow
    ensures ValueAt(p, col, screen) == value <==> Holds(p.pending, row, col, screen, value)
  {
    var i := GuessAtIsLast(p.pending, col);
  }

  // ----- typing one key -----

  // The row and the column a key typed now goes to.
  function RowOf(p: Predictor, screen: Screen): int {
    if p.pending != [] && p.row.Some? then p.row.value else screen.cursorRow
  }

  function ColOf(p: Predictor, screen: Screen): int {
    if p.pending == [] then screen.cursorCol else p.pending[|p.pending| - 1].cursorAfter
  }

  // How far left typing has been on the row.
  function StartOf(p: Predictor, screen: Screen): int {
    if p.pending != [] then p.lineStart
    else if p.row != Some(screen.cursorRow) || screen.cursorCol < p.lineStart then screen.cursorCol
    else p.lineStart
  }

  // The state with one more guess. The first one says where typing starts;
  // on another row nothing is known to echo yet.
  predicate Guesses(q: Predictor, p: Predictor, screen: Screen, key: Keystroke) {
    && q.pending == p.pending + [key]
    && q.lineStart == StartOf(p, screen)
    && (q.srtt, q.maskedRow, q.tentative, q.suspect) == (p.srtt, p.maskedRow, p.tentative, p.suspect)
    && if p.pending != [] then (q.row, q.base, q.confirmed, q.doubtSince) == (p.row, p.base, p.confirmed, p.doubtSince)
       else
         && (q.row, q.base, q.doubtSince) == (Some(screen.cursorRow), screen.cursorCol, None)
         && (q.confirmed <==> p.confirmed && p.row == Some(screen.cursorRow))
  }

  // A character is guessed exactly where the row goes on blank, or as typed,
  // with room for the cursor after it; a backspace exactly right of where
  // typing started.
  lemma KeysGuessedExactlyWhen(p: Predictor, c: char, screen: Screen, at: int)
    ensures var tried, col := Insert(p, c, screen, at), ColOf(p, screen);
      && (tried.ok <==> col <= screen.cols - 2
                        && (Holds(p.pending, RowOf(p, screen), col, screen, ' ')
                            || Holds(p.pending, RowOf(p, screen), col, screen, c)))
      && (tried.ok ==> Guesses(tried.p, p, screen, Keystroke(col, c, col + 1, at, false)))
    ensures var tried, col := Erase(p, screen, at), ColOf(p, screen);
      && (tried.ok <==> col > StartOf(p, screen))
      && (tried.ok ==> Guesses(tried.p, p, screen, Keystroke(col - 1, ' ', col - 1, at, true)))
  {
    var q, col := AtCursor(p, screen), ColOf(p, screen);
    ValueAtHolds(q, RowOf(p, screen), col, screen, ' ');
    ValueAtHolds(q, RowOf(p, screen), col, screen, c);
  }

  // ----- typing -----

  // Every guess dropped, and where the next ones land not trusted.
  predicate Dropped(q: Predictor) {
    q.row == None && q.pending == [] && !q.confirmed && q.doubtSince == None && q.tentative
  }

  lemma {:induction false} TypeCharsAddsOrDrops(p: Predictor, data: string, screen: Screen, now: int)
    ensures var q := TypeChars(p, data, screen, now);
      && (q.srtt, q.maskedRow, q.suspect) == (p.srtt, p.maskedRow, p.suspect)
      && (Dropped(q) || (q.tentative == p.tentative && KeysOf(q.pending) == KeysOf(p.pending) + KeysTyped(data)))
    decreases |data|
  {
    if data == [] {
      assert KeysTyped(data) == [];
    } else {
      var typed := TypeChar(p, data[0], screen, now);
      if typed.ok {
        TypeCharsAddsOrDrops(typed.p, data[1..], screen, now);
        var n := |typed.p.pending| - 1;
        AppendsOne(p.pending, typed.p.pending[n]);
        assert KeysTyped(data) == [KeyTyped(data[0])] + KeysTyped(data[1..]);
        Associates(KeysOf(p.pending), [KeyTyped(data[0])], KeysTyped(data[1..]));
      }
    }
  }

  lemma {:induction false} UnguessableDrops(p: Predictor, data: string, screen: Screen, now: int, i: nat)
    requires i < |data| && !IsBackspace(data[i]) && !IsPredictable(data[i])
    ensures Dropped(TypeChars(p, data, screen, now))
    decreases |data|
  {
    var typed := TypeChar(p, data[0], screen, now);
    if typed.ok {
      UnguessableDrops(typed.p, data[1..], screen, now, i - 1);
    }
  }

  // Typing guesses every key or drops all guesses, which it does for any key
  // but backspaces and printable ones. Ending the line forgets a masked row.
  lemma TypeAddsOrDrops(p: Predictor, data: string, screen: Screen, now: int)
    ensures var q := Type(p, data, screen, now);
      && q.srtt == p.srtt
      && (Dropped(q) || (q.tentative == p.tentative && KeysOf(q.pending) == KeysOf(p.pending) + KeysTyped(data)))
      && ((exists c :: c in data && c !in "\U{7f}\U{8}" && !(' ' <= c <= '~')) ==> Dropped(q))
      && (if exists c :: c in data && c in "\r\n\U{3}\U{4}"
          then Dropped(q) && q.maskedRow == None && q.suspect == None
          else (q.maskedRow, q.suspect) == (p.maskedRow, p.suspect))
  {
    var begun := if EndsLine(data) then p.(maskedRow := None, suspect := None) else p;
    TypeCharsAddsOrDrops(begun, data, screen, now);
    if c :| c in data && c !in "\U{7f}\U{8}" && !(' ' <= c <= '~') {
      var i :| 0 <= i < |data| && data[i] == c;
      UnguessableDrops(begun, data, screen, now, i);
    }
  }

  // ----- looking at the screen -----

  // The screen shows the cursor right after this key on the row.
  predicate IsPassed(key: Keystroke, row: int, screen: Screen) {
    screen.cursorRow == row && screen.cursorCol == key.cursorAfter
  }

  // The first key of which the screen shows the character and the cursor after it.
  predicate IsFirstEchoed(pending: seq<Keystroke>, i: nat, row: int, screen: Screen)
    requires i < |pending|
  {
    && IsPassed(pending[i], row, screen) && screen.charAt(row, pending[i].col) == pending[i].value
    && forall j :: 0 <= j < i ==>
         !(IsPassed(pending[j], row, screen) && screen.charAt(row, pending[j].col) == pending[j].value)
  }

  // A smoothed round trip: the first one measured, and from then on seven
  // parts of the old and one of the new.
  predicate Smooths(smoothed: Option<real>, before: Option<real>, rttMs: int) {
    && smoothed.Some?
    && if before.None? then smoothed.value == rttMs as real
       else 8.0 * smoothed.value == 7.0 * before.value + rttMs as real
  }

  // A key echoed takes with it all before it and is what the next look starts
  // from. It shows that the row echoes, unless it is a backspace or the row
  // is taken for masked or showed that character for another key.
  lemma EchoConfirms(p: Predictor, screen: Screen, now: int, i: nat)
    requires p.row.Some? && i < |p.pending| && IsFirstEchoed(p.pending, i, p.row.value, screen)
    ensures var q, key := Reconcile(p, screen, now), p.pending[i];
      && (q.row, q.lineStart, q.base) == (p.row, p.lineStart, screen.cursorCol)
      && q.pending == p.pending[i + 1..]
      && (q.confirmed <==> p.confirmed || (!key.erases && p.maskedRow != p.row
                                           && p.suspect != Some(Suspect(p.row.value, key.value))))
      && !q.tentative && q.doubtSince == None
      && (q.maskedRow, q.suspect) == (p.maskedRow, p.suspect)
      && Smooths(q.srtt, p.srtt, now - key.at)
  {
  }

  // The cursor is right after this typed key, but another character stands there.
  predicate IsEchoedAsAnother(key: Keystroke, row: int, screen: Screen) {
    !key.erases && IsPassed(key, row, screen) && screen.charAt(row, key.col) != key.value
  }

  predicate NothingEchoed(pending: seq<Keystroke>, row: int, screen: Screen) {
    forall i :: 0 <= i < |pending| ==>
      !(IsPassed(pending[i], row, screen) && screen.charAt(row, pending[i].col) == pending[i].value)
  }

  lemma {:induction false} EchoedAsIsTheFirst(pending: seq<Keystroke>, row: int, screen: Screen)
    requires screen.cursorRow == row
    ensures match EchoedAs(pending, row, screen)
            case None => forall i :: 0 <= i < |pending| ==> !IsEchoedAsAnother(pending[i], row, screen)
            case Some(shown) =>
              exists i :: 0 <= i < |pending| && IsEchoedAsAnother(pending[i], row, screen)
                          && shown == screen.charAt(row, pending[i].col)
                          && forall j :: 0 <= j < i ==> !IsEchoedAsAnother(pending[j], row, screen)
  {
    if pending != [] && !Differs(pending[0], row, screen) {
      EchoedAsIsTheFirst(pending[1..], row, screen);
      match EchoedAs(pending, row, screen)
      case None => assert forall i :: 0 < i < |pending| ==> pending[i] == pending[1..][i - 1];
      case Some(shown) =>
        var i :| 0 <= i < |pending| - 1 && IsEchoedAsAnother(pending[1..][i], row, screen)
                 && shown == screen.charAt(row, pending[1..][i].col)
                 && forall j :: 0 <= j < i ==> !IsEchoedAsAnother(pending[1..][j], row, screen);
        assert IsEchoedAsAnother(pending[i + 1], row, screen);
        assert forall j :: 0 < j < i + 1 ==> pending[j] == pending[1..][j - 1];
    }
  }

  // With no key echoed, settled guesses are dropped and the row is taken for
  // masked when a key shows as another character; otherwise the line is in
  // doubt, unless the cursor waits where typing started, since the first look
  // that found it so.
  lemma NoEchoMasksOrDoubts(p: Predictor, screen: Screen, now: int)
    requires p.row.Some? && p.pending != [] && !p.tentative && NothingEchoed(p.pending, p.row.value, screen)
    ensures var q, row := Reconcile(p, screen, now), p.row.value;
      if exists i :: 0 <= i < |p.pending| && IsEchoedAsAnother(p.pending[i], row, screen)
      then q == p.(row := None, pending := [], confirmed := false, doubtSince := None, maskedRow := Some(row))
      else
        && q == p.(doubtSince := q.doubtSince)
        && q.doubtSince
           == if screen.cursorRow == row && screen.cursorCol == p.base then None
              else if p.doubtSince.None? then Some(now) else p.doubtSince
  {
    var row := p.row.value;
    if screen.cursorRow == row {
      EchoedAsIsTheFirst(p.pending, row, screen);
      assert forall i :: 0 <= i < |p.pending| && EchoesAt(p.pending[i], row, screen) ==>
          IsPassed(p.pending[i], row, screen);
    }
  }

  // ----- moving tentative guesses -----

  predicate KeepsTimes(part: seq<Keystroke>, keys: seq<Keystroke>) {
    |part| == |keys| && forall i :: 0 <= i < |part| ==> KeyOf(part[i]) == KeyOf(keys[i]) && part[i].at == keys[i].at
  }

  // Where guesses made again start from: the cursor, on its row.
  predicate StartsAt(q: Predictor, p: Predictor, screen: Screen) {
    && (q.row, q.base) == (Some(screen.cursorRow), screen.cursorCol)
    && (q.confirmed <==> p.confirmed && p.row == Some(screen.cursorRow))
  }

  // The keys guessed anew behind those of `p`, or every guess dropped.
  predicate GuessedAnew(q: Predictor, p: Predictor, keys: seq<Keystroke>, screen: Screen) {
    && (q.srtt, q.maskedRow, q.suspect) == (p.srtt, p.maskedRow, p.suspect)
    && (Dropped(q)
        || (q.tentative == p.tentative && |q.pending| == |p.pending| + |keys|
            && q.pending[..|p.pending|] == p.pending && KeepsTimes(q.pending[|p.pending|..], keys)
            && (keys == [] ==> q == p)
            && (keys != [] && p.pending == [] ==> StartsAt(q, p, screen))
            && (p.pending != [] ==> (q.row, q.base, q.confirmed) == (p.row, p.base, p.confirmed))))
  }

  lemma OneMoreGuessedAnew(q: Predictor, next: Predictor, p: Predictor, key: Keystroke, keys: seq<Keystroke>,
          screen: Screen)
    requires keys != [] && KeyOf(key) == KeyOf(keys[0]) && key.at == keys[0].at
    requires Guesses(next, p, screen, key) && GuessedAnew(q, next, keys[1..], screen)
    ensures GuessedAnew(q, p, keys, screen)
  {
    if !Dropped(q) {
      hide Dropped;
      var n := |p.pending|;
      assert q.pending[..n] == q.pending[..n + 1][..n];
      assert q.pending[n..] == [q.pending[n]] + q.pending[n + 1..] && q.pending[n] == q.pending[..n + 1][n] == key;
    }
  }

  lemma {:induction false} PlaceKeysMoves(p: Predictor, keys: seq<Keystroke>, screen: Screen)
    ensures GuessedAnew(PlaceKeys(p, keys, screen), p, keys, screen)
    decreases |keys|
  {
    if keys != [] {
      var placed := if keys[0].erases then Erase(p, screen, keys[0].at)
          else Insert(p, keys[0].value, screen, keys[0].at);
      if placed.ok {
        var key := PlacedOne(p, keys[0], screen);
        PlaceKeysMoves(placed.p, keys[1..], screen);
        hide *;
        PlaceKeysStep(p, keys, screen);
        OneMoreGuessedAnew(PlaceKeys(p, keys, screen), placed.p, p, key, keys, screen);
      } else {
        hide GuessedAnew;
        KeysNotPlaced(p, keys, screen);
      }
    }
  }

  lemma PlacedOne(p: Predictor, key: Keystroke, screen: Screen) returns (placed: Keystroke)
    requires (if key.erases then Erase(p, screen, key.at) else Insert(p, key.value, screen, key.at)).ok
    ensures KeyOf(placed) == KeyOf(key) && placed.at == key.at
    ensures Guesses((if key.erases then Erase(p, screen, key.at) else Insert(p, key.value, screen, key.at)).p, p,
                    screen,
                    placed)
  {
    KeysGuessedExactlyWhen(p, key.value, screen, key.at);
    hide Guesses;
    hide Insert;
    hide Erase;
    var col := ColOf(p, screen);
    placed := if key.erases then Keystroke(col - 1, ' ', col - 1, key.at, true)
      else Keystroke(col, key.value, col + 1, key.at, false);
  }

  lemma PlaceKeysStep(p: Predictor, keys: seq<Keystroke>, screen: Screen)
    requires keys != []
    ensures var placed := if keys[0].erases then Erase(p, screen, keys[0].at)
                          else Insert(p, keys[0].value, screen, keys[0].at);
      placed.ok ==> PlaceKeys(p, keys, screen) == PlaceKeys(placed.p, keys[1..], screen)
  {
    hide Insert;
    hide Erase;
  }

  lemma KeysNotPlaced(p: Predictor, keys: seq<Keystroke>, screen: Screen)
    requires keys != []
    requires !(if keys[0].erases then Erase(p, screen, keys[0].at) else Insert(p, keys[0].value, screen, keys[0].at)).ok
    ensures GuessedAnew(PlaceKeys(p, keys, screen), p, keys, screen)
  {
    hide ValueAt;
    hide KeepsTimes;
    hide StartsAt;
  }

  // The most first keys, none a backspace, that stand just before the cursor.
  ghost predicate IsShownBefore(pending: seq<Keystroke>, screen: Screen, n: nat) {
    && n <= |pending| && StandsBefore(pending, screen, n)
    && forall k: nat :: n < k <= |pending| ==> !StandsBefore(pending, screen, k)
  }

  predicate StandsBefore(pending: seq<Keystroke>, screen: Screen, n: nat)
    requires n <= |pending|
  {
    && (n == 0 || n <= screen.cursorCol)
    && forall i :: 0 <= i < n ==>
         !pending[i].erases && screen.charAt(screen.cursorRow, screen.cursorCol - n + i) == pending[i].value
  }

  lemma {:induction false} TypedFirstIs(pending: seq<Keystroke>)
    ensures var n := TypedFirst(pending);
      (forall i :: 0 <= i < n ==> !pending[i].erases) && (n < |pending| ==> pending[n].erases)
  {
    if pending != [] && !pending[0].erases {
      TypedFirstIs(pending[1..]);
    }
  }

  lemma StandingIsShown(pending: seq<Keystroke>, screen: Screen, n: nat)
    requires n <= |pending| && StandsBefore(pending, screen, n)
    ensures n <= TypedFirst(pending) && ShownFrom(pending[..n], screen, screen.cursorCol - n)
  {
    TypedFirstIs(pending);
  }

  lemma EchoedBeforeIsShown(pending: seq<Keystroke>, screen: Screen)
    ensures IsShownBefore(pending, screen, EchoedBefore(pending, screen))
  {
    TypedFirstIs(pending);
    var n := EchoedBefore(pending, screen);
    hide TypedFirst;
    hide ShownBefore;
    forall k: nat | n < k <= |pending| ensures !StandsBefore(pending, screen, k) {
      if StandsBefore(pending, screen, k) {
        StandingIsShown(pending, screen, k);
      }
    }
  }

  // What moving the guesses of a row leaves: those not shown before the
  // cursor, typed anew from there with the times they were sent at, or none.
  // A key shown as another character makes the row suspect of masking.
  ghost predicate Moves(q: Predictor, p: Predictor, screen: Screen, n: nat)
    requires p.row.Some?
  {
    var row := p.row.value;
    && IsShownBefore(p.pending, screen, n) && (q.srtt, q.maskedRow) == (p.srtt, p.maskedRow)
    && (if screen.cursorRow == row && exists i :: 0 <= i < |p.pending| && IsEchoedAsAnother(p.pending[i], row, screen)
        then exists i :: 0 <= i < |p.pending| && IsEchoedAsAnother(p.pending[i], row, screen)
                         && q.suspect == Some(Suspect(row, screen.charAt(row, p.pending[i].col)))
                         && forall j :: 0 <= j < i ==> !IsEchoedAsAnother(p.pending[j], row, screen)
        else q.suspect == p.suspect)
    && (Dropped(q)
        || (q.tentative && KeepsTimes(q.pending, p.pending[n..])
            && if n < |p.pending| then StartsAt(q, p, screen)
               else q.row == if screen.cursorRow == row then p.row else None))
  }

  lemma TakenUpSuspects(p: Predictor, row: int, screen: Screen)
    requires p.row == Some(row)
    ensures var q := TakenUp(p, row, screen);
      && q == p.(suspect := q.suspect, pending := [], row := if screen.cursorRow == row then p.row else None)
      && if screen.cursorRow == row && exists i :: 0 <= i < |p.pending| && IsEchoedAsAnother(p.pending[i], row, screen)
         then exists i :: 0 <= i < |p.pending| && IsEchoedAsAnother(p.pending[i], row, screen)
                          && q.suspect == Some(Suspect(row, screen.charAt(row, p.pending[i].col)))
                          && forall j :: 0 <= j < i ==> !IsEchoedAsAnother(p.pending[j], row, screen)
         else q.suspect == p.suspect
  {
    if screen.cursorRow == row {
      EchoedAsIsTheFirst(p.pending, row, screen);
    }
  }

  lemma PlaceMoves(p: Predictor, screen: Screen)
    requires p.row.Some? && p.tentative
    ensures Moves(Place(p, p.row.value, screen), p, screen, EchoedBefore(p.pending, screen))
  {
    var n, row := EchoedBefore(p.pending, screen), p.row.value;
    TakenUpSuspects(p, row, screen);
    EchoedBeforeIsShown(p.pending, screen);
    PlaceKeysMoves(TakenUp(p, row, screen), p.pending[n..], screen);
    hide TakenUp;
    hide EchoedBefore;
    hide PlaceKeys;
    hide IsShownBefore;
    hide IsEchoedAsAnother;
    var q := Place(p, row, screen);
    assert q.pending[0..] == q.pending;
  }

  // With no key echoed, tentative guesses are moved so.
  lemma NoEchoMovesTentative(p: Predictor, screen: Screen, now: int) returns (n: nat)
    requires p.row.Some? && p.pending != [] && p.tentative && NothingEchoed(p.pending, p.row.value, screen)
    ensures Moves(Reconcile(p, screen, now), p, screen, n)
  {
    n := EchoedBefore(p.pending, screen);
    PlaceMoves(p, screen);
    hide Place;
    hide Moves;
    var row := p.row.value;
    assert forall i :: 0 <= i < |p.pending| && EchoesAt(p.pending[i], row, screen) && screen.cursorRow == row ==>
        IsPassed(p.pending[i], row, screen);
  }

  // ----- giving up -----

  // The cursor is after the last guess and the row shows what the guesses
  // leave in every column they are for.
  predicate ShowsEveryGuess(p: Predictor, screen: Screen)
    requires p.row.Some? && p.pending != []
  {
    && IsPassed(p.pending[|p.pending| - 1], p.row.value, screen)
    && forall i :: 0 <= i < |p.pending| && IsLastFor(p.pending, i, p.pending[i].col) ==>
         screen.charAt(p.row.value, p.pending[i].col) == p.pending[i].value
  }

  lemma LastForColumn(p: Predictor, i: nat, screen: Screen) returns (k: nat)
    requires i < |p.pending|
    ensures k < |p.pending| && IsLastFor(p.pending, k, p.pending[i].col)
    ensures ValueAt(p, p.pending[i].col, screen) == p.pending[k].value
    ensures IsLastFor(p.pending, i, p.pending[i].col) ==> k == i
  {
    k := GuessAtIsLast(p.pending, p.pending[i].col);
  }

  lemma MatchesExactlyWhen(p: Predictor, screen: Screen)
    requires p.row.Some? && p.pending != []
    ensures Matches(p, screen) <==> ShowsEveryGuess(p, screen)
  {
    hide ValueAt;
    forall i: nat | i < |p.pending|
      ensures IsLastFor(p.pending, i, p.pending[i].col) ==> ValueAt(p, p.pending[i].col, screen) == p.pending[i].value
      ensures ShowsEveryGuess(p, screen) ==>
                screen.charAt(p.row.value, p.pending[i].col) == ValueAt(p, p.pending[i].col, screen)
    {
      var k := LastForColumn(p, i, screen);
    }
  }

  // The first guess is older than two seconds and than four round trips.
  predicate IsOverdue(p: Predictor, now: int) {
    && p.pending != []
    && (now - p.pending[0].at) as real > 2000.0
    && (p.srtt.Some? ==> (now - p.pending[0].at) as real > 4.0 * p.srtt.value)
  }

  // What giving up late guesses comes to: 150 ms of doubt drop every guess,
  // and nothing is shown. Otherwise an overdue first guess takes all with it;
  // the row and what it echoed are kept exactly when it shows every guess
  // already. Before that nothing changes.
  predicate GivesUp(q: Predictor, p: Predictor, screen: Screen, now: int)
    requires p.row.None? ==> p.pending == []
  {
    && (q.lineStart, q.srtt, q.maskedRow, q.suspect) == (p.lineStart, p.srtt, p.maskedRow, p.suspect)
    && if p.doubtSince.Some? && now - p.doubtSince.value > 150 then Dropped(q) && q.base == p.base
       else if !IsOverdue(p, now) then q == p
       else
         && q.pending == [] && !q.tentative
         && if ShowsEveryGuess(p, screen)
            then (q.row, q.confirmed, q.base, q.doubtSince) == (p.row, p.confirmed, screen.cursorCol, p.doubtSince)
            else (q.row, q.confirmed, q.base, q.doubtSince) == (None, false, p.base, None)
  }

  lemma ExpireGivesUp(p: Predictor, screen: Screen, now: int)
    requires Ok(p)
    ensures GivesUp(Expire(p, screen, now), p, screen, now)
  {
    hide Matches;
    hide ShowsEveryGuess;
    if p.row.Some? && p.pending != [] {
      MatchesExactlyWhen(p, screen);
    }
  }

  // In every run: the check for late guesses gives up exactly those, and
  // where it gives up the line nothing is shown.
  lemma ExpiredRunGivesUp(events: seq<Event>, screen: Screen, now: int, viewed: int)
    ensures Ok(Run(INITIAL, events))
    ensures var p, q := Run(INITIAL, events), Run(INITIAL, events + [Expired(screen, now)]);
      && GivesUp(q, p, screen, now)
      && (Dropped(q) || q.pending == [] ==> View(q, viewed) == None)
  {
    var all := events + [Expired(screen, now)];
    RunKeepsOk(INITIAL, events);
    RunLast(INITIAL, all);
    assert all[..|all| - 1] == events;
    ExpireGivesUp(Run(INITIAL, events), screen, now);
  }

  // ----- what is shown -----

  lemma {:induction false} CellsStall(pending: seq<Keystroke>, now: int, stallMs: real, col: int)
    ensures var cells := CellsOf(pending, now, stallMs);
      && (col in cells <==> exists i :: 0 <= i < |pending| && pending[i].col == col)
      && (col in cells ==> exists i :: 0 <= i < |pending| && IsLastFor(pending, i, col)
                                       && cells[col].shown == pending[i].value
                                       && (cells[col].stalled <==> (now - pending[i].at) as real > stallMs))
  {
    if pending != [] {
      var n := |pending| - 1;
      CellsStall(pending[..n], now, stallMs, col);
      if pending[n].col == col {
        assert IsLastFor(pending, n, col);
      } else if col in CellsOf(pending[..n], now, stallMs) {
        var i :| 0 <= i < n && IsLastFor(pending[..n], i, col)
                 && CellsOf(pending[..n], now, stallMs)[col].shown == pending[..n][i].value
                 && (CellsOf(pending[..n], now, stallMs)[col].stalled
                     <==> (now - pending[..n][i].at) as real > stallMs);
        assert IsLastFor(pending, i, col) && pending[..n][i] == pending[i];
      }
    }
  }

  // A cell is shown for exactly the columns with a guess, the last one for
  // each; it is shown as stalled once it is older than half a second and than
  // two round trips.
  predicate ShowsCell(view: PredictionView, p: Predictor, now: int, col: int) {
    if exists i :: 0 <= i < |p.pending| && p.pending[i].col == col
    then
      && col in view.cells
      && exists i :: 0 <= i < |p.pending| && IsLastFor(p.pending, i, col)
                     && view.cells[col].shown == p.pending[i].value
                     && (view.cells[col].stalled <==> IsStalled(p, p.pending[i].at, now))
    else col !in view.cells
  }

  predicate IsStalled(p: Predictor, at: int, now: int) {
    (now - at) as real > 500.0 && (p.srtt.Some? ==> (now - at) as real > 2.0 * p.srtt.value)
  }

  // Guesses are shown exactly on a row that echoes typing, while they are
  // neither tentative nor in doubt.
  lemma ViewShowsCells(p: Predictor, now: int)
    ensures var view := View(p, now);
      && (view.Some? <==> p.row.Some? && p.pending != [] && p.confirmed && !p.tentative && p.doubtSince == None)
      && (view.Some? ==>
            && p.row == Some(view.value.row) && view.value.cursorCol == p.pending[|p.pending| - 1].cursorAfter
            && forall col :: ShowsCell(view.value, p, now, col))
  {
    if View(p, now).Some? {
      forall col ensures ShowsCell(View(p, now).value, p, now, col) {
        CellsStall(p.pending, now, Max(STALL_MS, 2.0 * RoundTrip(p)), col);
      }
    }
  }
}
