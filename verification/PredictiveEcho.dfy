// Guessing the echo of typed keys over a slow link (src/lib/predictiveEcho.ts):
// the predictor as a state machine over values.
module PredictiveEcho {
  import opened Sequences

  // The cursor, the width and the cells of a terminal, as far as guessing needs
  // them.
  datatype Screen = Screen(cursorRow: int, cursorCol: int, cols: int, charAt: (int, int) -> char)

  datatype Keystroke = Keystroke(col: int, value: char, cursorAfter: int, at: int, erases: bool)

  datatype Suspect = Suspect(row: int, shown: char)

  datatype PredictedCell = PredictedCell(shown: char, stalled: bool)

  // One predicted cell a column, and where the cursor is drawn.
  datatype PredictionView = PredictionView(row: int, cells: map<int, PredictedCell>, cursorCol: int)

  const STALL_MS: real := 500.0
  const TIMEOUT_MS: real := 2000.0
  const DOUBT_MS := 150

  datatype Predictor = Predictor(
    row: Option<int>,
    lineStart: int,
    base: int,
    pending: seq<Keystroke>,
    confirmed: bool,
    doubtSince: Option<int>,
    srtt: Option<real>,
    maskedRow: Option<int>,
    tentative: bool,
    suspect: Option<Suspect>)

  const INITIAL := Predictor(None, 0, 0, [], false, None, None, None, false, None)

  predicate IsPredictable(c: char) {
    ' ' <= c <= '~'
  }

  predicate IsBackspace(c: char) {
    c == '\U{7f}' || c == '\U{8}'
  }

  // Holds a return, a line feed, or the control character 3 or 4.
  predicate EndsLine(data: string) {
    '\r' in data || '\n' in data || '\U{3}' in data || '\U{4}' in data
  }

  function Min(a: int, b: int): int {
    if a <= b then a else b
  }

  function Max(a: real, b: real): real {
    if a >= b then a else b
  }

  function RoundTrip(p: Predictor): real {
    if p.srtt.Some? then p.srtt.value else 0.0
  }

  // ----- forgetting -----

  function Clear(p: Predictor): Predictor {
    p.(row := None, pending := [], confirmed := false, doubtSince := None)
  }

  // Drops the guesses and no longer trusts where the next ones will land.
  function Reset(p: Predictor): Predictor {
    Clear(p).(tentative := true)
  }

  // ----- guessing one key -----

  // With no guess pending, typing starts over at the cursor.
  function AtCursor(p: Predictor, screen: Screen): Predictor {
    if p.pending != [] then p
    else
      var q := if p.row != Some(screen.cursorRow)
          then Clear(p).(row := Some(screen.cursorRow), lineStart := screen.cursorCol) else p;
      q.(lineStart := Min(q.lineStart, screen.cursorCol), base := screen.cursorCol, doubtSince := None)
  }

  // Each guess says where it leaves the cursor; without one it is where the
  // screen has it.
  function NextCol(p: Predictor, screen: Screen): int {
    if p.pending != [] then p.pending[|p.pending| - 1].cursorAfter else screen.cursorCol
  }

  // The last guess for the column, if there is one.
  function GuessAt(pending: seq<Keystroke>, col: int): Option<char> {
    if pending == [] then None
    else
      var last := pending[|pending| - 1];
      if last.col == col then Some(last.value) else GuessAt(pending[..|pending| - 1], col)
  }

  function ValueAt(p: Predictor, col: int, screen: Screen): char {
    match GuessAt(p.pending, col)
    case Some(value) => value
    case None => screen.charAt(if p.row.Some? then p.row.value else screen.cursorRow, col)
  }

  datatype Tried = Tried(ok: bool, p: Predictor)

  function Insert(p: Predictor, c: char, screen: Screen, at: int): Tried {
    var q, col := AtCursor(p, screen), NextCol(p, screen);
    // The next column would be past the row.
    if col >= screen.cols - 1 then Tried(false, q)
    else
      // A cell with other text in it cannot be guessed, since a shell would
      // insert.
      var current := ValueAt(q, col, screen);
      if current != ' ' && current != c then Tried(false, q)
      else Tried(true, q.(pending := q.pending + [Keystroke(col, c, col + 1, at, false)]))
  }

  function Erase(p: Predictor, screen: Screen, at: int): Tried {
    var q, col := AtCursor(p, screen), NextCol(p, screen);
    // Nothing left of where the typing began is the user's to delete.
    if col <= q.lineStart then Tried(false, q)
    else Tried(true, q.(pending := q.pending + [Keystroke(col - 1, ' ', col - 1, at, true)]))
  }

  function TypeChar(p: Predictor, c: char, screen: Screen, at: int): Tried {
    if IsBackspace(c) then Erase(p, screen, at)
    else if IsPredictable(c) then Insert(p, c, screen, at)
    else Tried(false, p)
  }

  function TypeChars(p: Predictor, data: string, screen: Screen, now: int): Predictor
    decreases |data|
  {
    if data == [] then p
    else
      var typed := TypeChar(p, data[0], screen, now);
      if typed.ok then TypeChars(typed.p, data[1..], screen, now) else Reset(typed.p)
  }

  // Adds a guess for each character of `data`, up to one that has none.
  function Type(p: Predictor, data: string, screen: Screen, now: int): Predictor {
    TypeChars(if EndsLine(data) then p.(maskedRow := None, suspect := None) else p, data, screen, now)
  }

  // ----- what the screen shows of them -----

  predicate EchoesAt(key: Keystroke, row: int, screen: Screen) {
    key.cursorAfter == screen.cursorCol && screen.charAt(row, key.col) == key.value
  }

  // The first guess the screen shows echoed, or -1.
  function FindEchoed(pending: seq<Keystroke>, row: int, screen: Screen): (i: int)
    ensures -1 <= i < |pending|
    ensures i >= 0 ==> EchoesAt(pending[i], row, screen)
    ensures forall j :: 0 <= j < (if i == -1 then |pending| else i) ==> !EchoesAt(pending[j], row, screen)
  {
    if pending == [] then -1
    else if EchoesAt(pending[0], row, screen) then 0
    else
      var rest := FindEchoed(pending[1..], row, screen);
      if rest == -1 then -1 else rest + 1
  }

  predicate Differs(key: Keystroke, row: int, screen: Screen) {
    !key.erases && key.cursorAfter == screen.cursorCol && screen.charAt(row, key.col) != key.value
  }

  // The first guess that the cursor has passed without its character being
  // there: what is there instead.
  function EchoedAs(pending: seq<Keystroke>, row: int, screen: Screen): Option<char> {
    if screen.cursorRow != row || pending == [] then None
    else if Differs(pending[0], row, screen) then Some(screen.charAt(row, pending[0].col))
    else EchoedAs(pending[1..], row, screen)
  }

  lemma {:induction false} EchoedAsFindsAny(pending: seq<Keystroke>, row: int, screen: Screen)
    requires screen.cursorRow == row
    ensures EchoedAs(pending, row, screen).None?
            <==> forall i :: 0 <= i < |pending| ==> !Differs(pending[i], row, screen)
  {
    if pending != [] {
      EchoedAsFindsAny(pending[1..], row, screen);
      if EchoedAs(pending, row, screen).None? {
        forall i | 0 <= i < |pending| ensures !Differs(pending[i], row, screen) {
          if i > 0 {
            assert pending[i] == pending[1..][i - 1];
          }
        }
      } else if Differs(pending[0], row, screen) {
      } else {
        var i :| 0 <= i < |pending| - 1 && Differs(pending[1..][i], row, screen);
        assert Differs(pending[i + 1], row, screen);
      }
    }
  }

  // How many of the guesses come before the first backspace.
  function TypedFirst(pending: seq<Keystroke>): (r: nat)
    ensures r <= |pending|
  {
    if pending == [] || pending[0].erases then 0 else 1 + TypedFirst(pending[1..])
  }

  predicate ShownFrom(pending: seq<Keystroke>, screen: Screen, start: int) {
    forall i :: 0 <= i < |pending| ==> screen.charAt(screen.cursorRow, start + i) == pending[i].value
  }

  // The largest count, up to `count`, of first guesses shown just before the cursor.
  function ShownBefore(pending: seq<Keystroke>, screen: Screen, count: nat): (r: nat)
    requires count <= |pending|
    ensures r <= count
    ensures r > 0 ==> ShownFrom(pending[..r], screen, screen.cursorCol - r)
    ensures forall k :: r < k <= count ==> !ShownFrom(pending[..k], screen, screen.cursorCol - k)
  {
    if count == 0 then 0
    else if ShownFrom(pending[..count], screen, screen.cursorCol - count) then count
    else ShownBefore(pending, screen, count - 1)
  }

  function EchoedBefore(pending: seq<Keystroke>, screen: Screen): (r: nat)
    ensures r <= |pending|
  {
    var typed := Min(TypedFirst(pending), screen.cursorCol);
    ShownBefore(pending, screen, if typed < 0 then 0 else typed)
  }

  function PlaceKeys(p: Predictor, keys: seq<Keystroke>, screen: Screen): Predictor
    decreases |keys|
  {
    if keys == [] then p
    else
      var placed := if keys[0].erases then Erase(p, screen, keys[0].at)
          else Insert(p, keys[0].value, screen, keys[0].at);
      if placed.ok then PlaceKeys(placed.p, keys[1..], screen) else Reset(placed.p)
  }

  // Without its guesses, which are about to be placed again.
  function TakenUp(p: Predictor, row: int, screen: Screen): Predictor {
    var other := EchoedAs(p.pending, row, screen);
    p.(suspect := if other.Some? then Some(Suspect(row, other.value)) else p.suspect,
       pending := [],
       row := if screen.cursorRow != row then None else p.row)
  }

  // Guesses once more all keys that the line does not end with yet, starting
  // where the cursor is.
  function Place(p: Predictor, row: int, screen: Screen): Predictor {
    PlaceKeys(TakenUp(p, row, screen), p.pending[EchoedBefore(p.pending, screen)..], screen)
  }

  function Sampled(srtt: Option<real>, rttMs: int): Option<real> {
    if srtt.None? then Some(rttMs as real) else Some(srtt.value + (rttMs as real - srtt.value) / 8.0)
  }

  function Confirm(p: Predictor, row: int, echoed: nat, now: int): Predictor
    requires echoed < |p.pending|
  {
    var key := p.pending[echoed];
    var masked := p.maskedRow == Some(row) || p.suspect == Some(Suspect(row, key.value));
    p.(srtt := Sampled(p.srtt, now - key.at),
       confirmed := p.confirmed || (!key.erases && !masked),
       tentative := false,
       doubtSince := None,
       base := key.cursorAfter,
       pending := p.pending[echoed + 1..])
  }

  // Since when the line has been unlike the guesses; a cursor still at `base`
  // says nothing against them.
  function Doubted(p: Predictor, row: int, screen: Screen, now: int): Predictor {
    var waiting := screen.cursorRow == row && screen.cursorCol == p.base;
    p.(doubtSince := if waiting then None else if p.doubtSince.Some? then p.doubtSince else Some(now))
  }

  function Unechoed(p: Predictor, row: int, screen: Screen, now: int): Predictor {
    if p.tentative then Place(p, row, screen)
    else if EchoedAs(p.pending, row, screen).Some? then Clear(p).(maskedRow := Some(row))
    else Doubted(p, row, screen, now)
  }

  // One look at the screen: it confirms guesses up to some key, or places, drops
  // or doubts them.
  function Reconcile(p: Predictor, screen: Screen, now: int): Predictor {
    if p.row.None? || p.pending == [] then p
    else
      var row := p.row.value;
      var echoed := if screen.cursorRow == row then FindEchoed(p.pending, row, screen) else -1;
      if echoed >= 0 then Confirm(p, row, echoed, now) else Unechoed(p, row, screen, now)
  }

  // Cursor and cells are as if every guess had come true.
  predicate Matches(p: Predictor, screen: Screen) {
    p.row.None? || p.pending == [] ||
    (screen.cursorRow == p.row.value && screen.cursorCol == p.pending[|p.pending| - 1].cursorAfter
     && forall i :: 0 <= i < |p.pending| ==>
          screen.charAt(p.row.value, p.pending[i].col) == ValueAt(p, p.pending[i].col, screen))
  }

  // Gives up on a line in doubt for long, and on a first guess that is overdue.
  function Expire(p: Predictor, screen: Screen, now: int): Predictor {
    if p.doubtSince.Some? && now - p.doubtSince.value > DOUBT_MS then Reset(p)
    else if p.pending == [] || (now - p.pending[0].at) as real <= Max(TIMEOUT_MS, 4.0 * RoundTrip(p)) then p
    else (if Matches(p, screen) then p.(base := screen.cursorCol, pending := []) else Clear(p)).(tentative := false)
  }

  // The cells the guesses change; of two for one column the later one counts.
  function CellsOf(pending: seq<Keystroke>, now: int, stallMs: real): map<int, PredictedCell> {
    if pending == [] then map[]
    else
      var last := pending[|pending| - 1];
      CellsOf(pending[..|pending| - 1], now,
              stallMs)[last.col := PredictedCell(last.value, (now - last.at) as real > stallMs)]
  }

  // Some only on a row that has echoed typing, with the guesses neither
  // tentative nor in doubt.
  function View(p: Predictor, now: int): Option<PredictionView> {
    if p.row.None? || !p.confirmed || p.tentative || p.doubtSince.Some? || p.pending == [] then None
    else Some(PredictionView(p.row.value, CellsOf(p.pending, now, Max(STALL_MS, 2.0 * RoundTrip(p))),
                             p.pending[|p.pending| - 1].cursorAfter))
  }
}
