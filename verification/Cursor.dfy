// Where putch() and locate() (screen.c:157-247) take the cursor and the line of the scrollback log, and where in the
// log they write.
module Cursor {
  const W := 80
  const H := 25
  const SCROLLBACK_BUF_SIZE := 81920        // 1024 * 80 (config.h:115)
  const LINES := 1024
  const SPACE := 0x20

  // A char is signed: codes from 128 on are negative and print nothing.
  predicate Printable(c: int)
  {
    c >= SPACE
  }

  // The column before the line break at the right edge.
  function Column(x: int, c: int): int
  {
    if c == 0x08 then (if x != 0 then x - 1 else 0)
    else if c == 0x09 then (x + 8) / 8 * 8
    else if c == 0x0D || c == 0x0A then 0
    else if Printable(c) then x + 1
    else x
  }

  predicate NewLine(x: int, c: int)
  {
    c == 0x0A || Column(x, c) >= W
  }

  function NextX(x: int, c: int): (r: int)
    requires 0 <= x < W
    ensures 0 <= r < W
  {
    if Column(x, c) >= W then 0 else Column(x, c)
  }

  // The row once the screen has moved up if need be.
  function NextY(y: int, x: int, c: int): int
  {
    Scrolled(if NewLine(x, c) then y + 1 else y)
  }

  function Scrolled(y: int): int
  {
    if y < H then y else H - 1
  }

  // A tab goes to the next multiple of 8, a backspace one column back but not past the first, a carriage return to the
  // first column, and a printable character one column on; at the right edge a new line begins.
  lemma ColumnIs(x: int, c: int)
    requires 0 <= x < 80
    ensures c == 0x09 ==> Column(x, c) % 8 == 0 && x < Column(x, c) <= x + 8
    ensures c == 0x08 ==> x - 1 <= Column(x, c) <= x && (Column(x, c) == x <==> x == 0)
    ensures c == 0x0D || c == 0x0A ==> NextX(x, c) == 0
    ensures 0x20 <= c < 0x80 ==> NextX(x, c) == (x + 1) % 80
    ensures NewLine(x, c) <==> c == 0x0A || (c == 0x09 && x >= 72) || (c >= 0x20 && x == 79)
    ensures c < 0x20 && c !in {0x08, 0x09, 0x0A, 0x0D} ==> NextX(x, c) == x
  {
  }

  // How many lines a text goes down, and the column it ends in.
  function LinesOf(x: int, s: seq<int>): nat
    requires 0 <= x < W
    decreases |s|
  {
    if s == [] then 0 else (if NewLine(x, s[0]) then 1 else 0) + LinesOf(NextX(x, s[0]), s[1..])
  }

  function EndX(x: int, s: seq<int>): (r: int)
    requires 0 <= x < W
    ensures 0 <= r < W
    decreases |s|
  {
    if s == [] then x else EndX(NextX(x, s[0]), s[1..])
  }

  lemma {:induction false} LinesSnoc(x: int, s: seq<int>, c: int)
    requires 0 <= x < W
    ensures LinesOf(x, s + [c]) == LinesOf(x, s) + (if NewLine(EndX(x, s), c) then 1 else 0)
    ensures EndX(x, s + [c]) == NextX(EndX(x, s), c)
    decreases |s|
  {
    if s == [] {
      assert s + [c] == [c] && [c][1..] == [];
    } else {
      assert (s + [c])[0] == s[0] && (s + [c])[1..] == s[1..] + [c];
      LinesSnoc(NextX(x, s[0]), s[1..], c);
    }
  }

  lemma {:induction false} LinesPrefix(x: int, s: seq<int>, k: nat)
    requires 0 <= x < W && k <= |s|
    ensures LinesOf(x, s[..k]) <= LinesOf(x, s)
    decreases |s|
  {
    if k > 0 {
      assert s[..k][0] == s[0] && s[..k][1..] == s[1..][..k - 1];
      LinesPrefix(NextX(x, s[0]), s[1..], k - 1);
    }
  }

  // ---------------------------------------------------------------- calls in sequence

  datatype Call = Put(c: int) | Move(x: int, dy: int)

  // Column, row, and line of the log.
  datatype Place = Place(x: int, y: int, b: int)

  predicate Within(p: Place)
  {
    0 <= p.x < W && 0 <= p.b
  }

  // "Scrollback overflow!" (screen.c:211), which goes to line 0 of the log, before a line feed.
  const OVERFLOW_MESSAGE: seq<int> := [83, 99, 114, 111, 108, 108, 98, 97, 99, 107, 32, 111, 118, 101, 114, 102, 108,
                                       111, 119, 33]
  const OVERFLOW_LENGTH := 20

  predicate Overflows(p: Place, c: int)
  {
    c == 0x0A && p.b + 1 > SCROLLBACK_BUF_SIZE
  }

  function NextPlace(p: Place, call: Call): Place
    requires Within(p)
  {
    match call
    case Put(c) =>
      if Overflows(p, c) then Place(0, Scrolled(Scrolled(p.y + 1) + 1), 1)
      else Place(NextX(p.x, c), NextY(p.y, p.x, c), p.b + if NewLine(p.x, c) then 1 else 0)
    case Move(x, dy) => Place(x, p.y + dy, p.b + dy)
  }

  // Rows end at 24, where the screen moves up; each new line is one of the log, too, until the line number overflows
  // and the message takes line 0. A move is relative in rows.
  lemma PlaceIs(p: Place, c: int, x: int, dy: int)
    requires Within(p)
    ensures var down := if NewLine(p.x, c) then 1 else 0;
            var y := if p.y + down < 25 then p.y + down else 24;
            NextPlace(p, Put(c)) == if c == 0x0A && p.b >= 81920 then Place(0, if y < 24 then y + 1 else 24, 1)
                                    else Place(NextX(p.x, c), y, p.b + down)
    ensures NextPlace(p, Move(x, dy)) == Place(x, p.y + dy, p.b + dy)
  {
  }

  lemma MessageIs(i: int)
    requires 0 <= i < OVERFLOW_LENGTH
    ensures OVERFLOW_MESSAGE[i] == "Scrollback overflow!"[i] as int
  {
  }

  // The offsets in the log to which a call writes.
  function Offsets(p: Place, call: Call): seq<int>
  {
    match call
    case Put(c) =>
      if Overflows(p, c) then seq(OVERFLOW_LENGTH, x => x)
      else if Printable(c) then [p.b * W + p.x]
      else []
    case Move(_, _) => []
  }

  // Every locate() leads to a column of the screen, to a row below the status row and to a line of the log.
  predicate MovesInRange(p: Place, calls: seq<Call>)
    requires Within(p)
    decreases |calls|
  {
    calls == [] ||
    (MoveInRange(p, calls[0]) && MovesInRange(NextPlace(p, calls[0]), calls[1..]))
  }

  predicate MoveInRange(p: Place, call: Call)
  {
    call.Move? ==> 0 <= call.x < W && 1 <= p.y + call.dy < H && 0 <= p.b + call.dy
  }

  function EndPlace(p: Place, calls: seq<Call>): Place
    requires Within(p) && MovesInRange(p, calls)
    decreases |calls|
  {
    if calls == [] then p else EndPlace(NextPlace(p, calls[0]), calls[1..])
  }

  function LogWrites(p: Place, calls: seq<Call>): seq<int>
    requires Within(p) && MovesInRange(p, calls)
    decreases |calls|
  {
    if calls == [] then [] else Offsets(p, calls[0]) + LogWrites(NextPlace(p, calls[0]), calls[1..])
  }

  // Every printable character finds the line below 1024.
  predicate PrintsBelow(p: Place, calls: seq<Call>)
    requires Within(p) && MovesInRange(p, calls)
    decreases |calls|
  {
    calls == [] ||
    (PrintBelow(p, calls[0]) && PrintsBelow(NextPlace(p, calls[0]), calls[1..]))
  }

  predicate PrintBelow(p: Place, call: Call)
  {
    call.Put? && Printable(call.c) ==> p.b < LINES
  }

  predicate InLog(o: int)
  {
    0 <= o < SCROLLBACK_BUF_SIZE
  }

  lemma OneCall(p: Place, call: Call)
    requires Within(p)
    ensures (forall o | o in Offsets(p, call) :: InLog(o)) <==> PrintBelow(p, call)
  {
    if call.Put? && Printable(call.c) { assert p.b * W + p.x in Offsets(p, call); }
  }

  // From any place on, with every locate() in range: all writes to the log lie inside it if and only if the line is
  // below 1024 at each printable character. The check of screen.c:209, which compares the line with the number of
  // bytes, comes too late to make a difference.
  lemma {:induction false} LogStaysInsideExactlyWhen(p: Place, calls: seq<Call>)
    requires Within(p) && MovesInRange(p, calls)
    ensures (forall o | o in LogWrites(p, calls) :: InLog(o)) <==> PrintsBelow(p, calls)
    decreases |calls|
  {
    if calls != [] {
      var first, rest := Offsets(p, calls[0]), LogWrites(NextPlace(p, calls[0]), calls[1..]);
      OneCall(p, calls[0]);
      LogStaysInsideExactlyWhen(NextPlace(p, calls[0]), calls[1..]);
      assert LogWrites(p, calls) == first + rest;
      assert forall o | o in first :: o in first + rest;
      assert forall o | o in rest :: o in first + rest;
      assert forall o | o in first + rest :: o in first || o in rest;
      hide Offsets, LogWrites, NextPlace, PrintBelow, InLog;
    }
  }

  // ---------------------------------------------------------------- an input that leaves the log

  function NewLines(n: nat): seq<Call>
  {
    if n == 0 then [] else [Put(0x0A)] + NewLines(n - 1)
  }

  // Line after line, up to the size in bytes, the check lets the line number grow.
  lemma {:induction false} NewLinesThen(p: Place, n: nat, call: Call)
    requires Within(p) && p.x == 0 && p.b + n <= SCROLLBACK_BUF_SIZE && call.Put?
    ensures MovesInRange(p, NewLines(n) + [call])
    ensures LogWrites(p, NewLines(n) + [call]) == Offsets(Place(0, p.y, p.b + n), call)
    decreases n
  {
    var calls := NewLines(n) + [call];
    if n == 0 {
      assert calls == [call] && calls[1..] == [];
      assert p == Place(0, p.y, p.b);
    } else {
      var next := NextPlace(p, Put(0x0A));
      assert calls[0] == Put(0x0A) && calls[1..] == NewLines(n - 1) + [call];
      NewLinesThen(next, n - 1, call);
      SameOffsets(Place(0, next.y, next.b + (n - 1)), Place(0, p.y, p.b + n), call);
      assert Offsets(p, Put(0x0A)) == [];
    }
  }

  lemma SameOffsets(p: Place, q: Place, call: Call)
    requires p.x == q.x && p.b == q.b
    ensures Offsets(p, call) == Offsets(q, call)
  {
  }

  // After init_video_scrollback(): 1024 line feeds and a letter.
  lemma ThousandLinesLeaveTheLog(y: int)
    ensures MovesInRange(Place(0, y, 0), NewLines(LINES) + [Put(0x41)])
    ensures LogWrites(Place(0, y, 0), NewLines(LINES) + [Put(0x41)]) == [SCROLLBACK_BUF_SIZE]
  {
    hide NewLines, LogWrites, MovesInRange;
    NewLinesThen(Place(0, y, 0), LINES, Put(0x41));
  }
}
