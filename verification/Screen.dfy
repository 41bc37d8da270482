// The text screen and its scrollback log (screen.c:54-247, screen.c:286-304, lib.c:52-79), as the kernel prints from
// one CPU at a time. The text memory holds two bytes for each cell, the character and its attribute; the log has
// 1024 lines of 80 characters.
module Screen {
  import opened Cursor

  const VGA_BYTES := 32768                  // the text memory from 0xB8000 on
  const ATTRIB_BLANK := 0x0F                // white on black
  const ATTRIB_STATUS := 0x1F

  // The character shown in row r, column x, and the one logged in line l.
  function CharAt(text: seq<int>, r: int, x: int): int
    requires |text| == VGA_BYTES && 0 <= r <= H && 0 <= x < W
  {
    text[2 * (r * W + x)]
  }

  function LogAt(log: seq<int>, l: int, x: int): int
    requires |log| == SCROLLBACK_BUF_SIZE && 0 <= l < LINES && 0 <= x < W
  {
    log[l * W + x]
  }

  // Row r below the status row shows line d + r of the log, and no line has been logged beyond the screen.
  ghost predicate Agree(text: seq<int>, log: seq<int>, d: int)
    requires |text| == VGA_BYTES && |log| == SCROLLBACK_BUF_SIZE
  {
    && (forall r: int, x: int | 1 <= r < H && 0 <= x < W && 0 <= d + r < LINES ::
        CharAt(text, r, x) == LogAt(log, d + r, x))
    && (forall l: int, x: int | d + H <= l && 0 <= l < LINES && 0 <= x < W :: LogAt(log, l, x) == SPACE)
  }

  ghost predicate BlankFrom(text: seq<int>, y: int)
    requires |text| == VGA_BYTES
  {
    forall r: int, x: int | 1 <= r < H && y <= r && 0 <= x < W :: CharAt(text, r, x) == SPACE
  }

  lemma Cells(r: int, x: int, s: int, y: int)
    requires 0 <= x < W && 0 <= y < W
    ensures r * W + x == s * W + y <==> r == s && x == y
  {
  }

  // The text memory with cell k set.
  function WithCell(text: seq<int>, k: int, c: int, attr: int): (r: seq<int>)
    requires |text| == VGA_BYTES && 0 <= k < (H + 1) * W
    ensures |r| == VGA_BYTES
  {
    text[2 * k := c][2 * k + 1 := attr]
  }

  lemma CellChars(text: seq<int>, y: int, x: int, c: int, attr: int, r: int, z: int)
    requires |text| == VGA_BYTES && 0 <= y <= H && 0 <= x < W && 0 <= r <= H && 0 <= z < W
    ensures CharAt(WithCell(text, y * W + x, c, attr), r, z) == if r == y && z == x then c else CharAt(text, r, z)
  {
    Cells(r, z, y, x);
  }

  // Writing a character at the cursor, on the screen and in the log.
  lemma WriteAgrees(text: seq<int>, log: seq<int>, d: int, y: int, x: int, c: int, attr: int)
    requires |text| == VGA_BYTES && |log| == SCROLLBACK_BUF_SIZE && Agree(text, log, d)
    requires 1 <= y < H && 0 <= x < W && 0 <= d + y < LINES
    ensures Agree(WithCell(text, y * W + x, c, attr), log[(d + y) * W + x := c], d)
  {
    var text', log' := WithCell(text, y * W + x, c, attr), log[(d + y) * W + x := c];
    forall r: int, z: int | 1 <= r < H && 0 <= z < W && 0 <= d + r < LINES
      ensures CharAt(text', r, z) == LogAt(log', d + r, z)
    {
      CellChars(text, y, x, c, attr, r, z);
      Cells(d + r, z, d + y, x);
      assert CharAt(text, r, z) == LogAt(log, d + r, z);
    }
    forall l: int, z: int | d + H <= l && 0 <= l < LINES && 0 <= z < W ensures LogAt(log', l, z) == SPACE {
      Cells(l, z, d + y, x);
      assert LogAt(log, l, z) == SPACE;
    }
  }

  lemma WriteBlank(text: seq<int>, y: int, x: int, c: int, attr: int)
    requires |text| == VGA_BYTES && 0 <= y <= H && 0 <= x < W && BlankFrom(text, y + 1)
    ensures BlankFrom(WithCell(text, y * W + x, c, attr), y + 1)
  {
    var after := WithCell(text, y * W + x, c, attr);
    forall r: int, z: int | 1 <= r < H && y + 1 <= r && 0 <= z < W ensures CharAt(after, r, z) == SPACE {
      CellChars(text, y, x, c, attr, r, z);
      assert CharAt(text, r, z) == SPACE;
    }
  }

  // The screen moves up by a row: rows 2 to 24 to rows 1 to 23, and row 24 is blank.
  predicate MovedUp(text: seq<int>, after: seq<int>)
    requires |text| == |after| == VGA_BYTES
  {
    && (forall k: int | 2 * W <= k < 2 * (H - 1) * W :: after[k] == text[k + 2 * W])
    && IsFilled(after, (H - 1) * W, H * W, SPACE, ATTRIB_BLANK)
  }

  // Cells from lo up to hi hold the same character and attribute.
  predicate IsFilled(text: seq<int>, lo: int, hi: int, c: int, attr: int)
    requires 0 <= lo && 2 * hi <= |text|
  {
    forall k: int | 2 * lo <= k < 2 * hi :: text[k] == if k % 2 == 0 then c else attr
  }

  // The last row is blank, white on black.
  lemma LastRowBlank(text: seq<int>, after: seq<int>, x: int)
    requires |text| == |after| == VGA_BYTES && MovedUp(text, after) && 0 <= x < 80
    ensures after[160 * 24 + 2 * x] == 0x20 && after[160 * 24 + 2 * x + 1] == 0x0F
  {
  }

  // By a copy of all rows and a blank last row.
  lemma RowsMoved(text: seq<int>, copied: seq<int>, after: seq<int>)
    requires |text| == |copied| == |after| == VGA_BYTES
    requires forall k | 2 * W <= k < 2 * (H * W) :: copied[k] == text[k + 2 * W]
    requires forall k | 0 <= k < 2 * W :: copied[k] == text[k]
    requires IsFilled(after, (H - 1) * W, H * W, SPACE, ATTRIB_BLANK)
    requires forall k | 0 <= k < VGA_BYTES && !(2 * ((H - 1) * W) <= k < 2 * (H * W)) :: after[k] == copied[k]
    ensures MovedUp(text, after) && after[..2 * W] == text[..2 * W]
  {
    assert forall k | 0 <= k < 2 * W :: after[k] == copied[k];
  }

  lemma MovedUpChars(text: seq<int>, after: seq<int>, r: int, x: int)
    requires |text| == |after| == VGA_BYTES && MovedUp(text, after) && 1 <= r < H && 0 <= x < W
    ensures CharAt(after, r, x) == if r < H - 1 then CharAt(text, r + 1, x) else SPACE
  {
    var k := 2 * (r * W + x);
    if r < H - 1 {
      assert 2 * W <= k < 2 * (H - 1) * W && 2 * ((r + 1) * W + x) == k + 2 * W;
    } else {
      assert 2 * ((H - 1) * W) <= k < 2 * (H * W) && k % 2 == 0;
    }
  }

  lemma ScrollAgrees(text: seq<int>, after: seq<int>, log: seq<int>, d: int)
    requires |text| == |after| == VGA_BYTES && |log| == SCROLLBACK_BUF_SIZE && Agree(text, log, d)
        && MovedUp(text, after)
    ensures Agree(after, log, d + 1)
  {
    forall r: int, x: int | 1 <= r < H && 0 <= x < W && 0 <= d + 1 + r < LINES
      ensures CharAt(after, r, x) == LogAt(log, d + 1 + r, x)
    {
      MovedUpChars(text, after, r, x);
      if r < H - 1 { assert CharAt(text, r + 1, x) == LogAt(log, d + (r + 1), x); }
    }
  }

  lemma ScrollBlank(text: seq<int>, after: seq<int>)
    requires |text| == |after| == VGA_BYTES && MovedUp(text, after)
    ensures BlankFrom(after, H - 1)
  {
    forall r: int, x: int | 1 <= r < H && H - 1 <= r && 0 <= x < W ensures CharAt(after, r, x) == SPACE {
      MovedUpChars(text, after, r, x);
    }
  }

  lemma LessBlank(text: seq<int>, y: int)
    requires |text| == VGA_BYTES
    ensures BlankFrom(text, y) ==> BlankFrom(text, y + 1)
  {
  }

  // The text memory with c at row y, column x.
  function Typed(text: seq<int>, y: int, x: int, attr: int, c: int): (r: seq<int>)
    requires |text| == VGA_BYTES && 0 <= y <= H && 0 <= x < W
    ensures |r| == VGA_BYTES
  {
    if Printable(c) then WithCell(text, y * W + x, c, attr) else text
  }

  // A printable character and its colour appear in the two bytes of the cursor's cell, and nothing else changes.
  lemma TypedShows(text: seq<int>, y: int, x: int, attr: int, c: int, k: int)
    requires |text| == VGA_BYTES && 0 <= y <= H && 0 <= x < W && 0 <= k < VGA_BYTES
    ensures Typed(text, y, x, attr, c)[k]
            == if c >= 0x20 && k == 160 * y + 2 * x then c
               else if c >= 0x20 && k == 160 * y + 2 * x + 1 then attr
               else text[k]
  {
  }

  // The log once a call has written to it, at its offsets.
  function Logged(log: seq<int>, p: Place, call: Call): (r: seq<int>)
    requires |log| == SCROLLBACK_BUF_SIZE && Within(p) && PrintBelow(p, call)
    ensures |r| == SCROLLBACK_BUF_SIZE
  {
    match call
    case Put(c) =>
      if Overflows(p, c) then OVERFLOW_MESSAGE + log[OVERFLOW_LENGTH..]
      else if Printable(c) then log[p.b * W + p.x := c]
      else log
    case Move(_, _) => log
  }

  // The log changes at the offsets of Cursor.Offsets and nowhere else: to the character, or letter by letter to the
  // overflow message.
  lemma LoggedAt(log: seq<int>, p: Place, call: Call, k: int)
    requires |log| == SCROLLBACK_BUF_SIZE && Within(p) && PrintBelow(p, call) && 0 <= k < SCROLLBACK_BUF_SIZE
    ensures k !in Offsets(p, call) ==> Logged(log, p, call)[k] == log[k]
    ensures call.Put? && call.c >= 0x20 && k == 80 * p.b + p.x ==>
              k in Offsets(p, call) && Logged(log, p, call)[k] == call.c
    ensures call.Put? && Overflows(p, call.c) && k < 20 ==>
              k in Offsets(p, call) && Logged(log, p, call)[k] == OVERFLOW_MESSAGE[k]
  {
    if call.Put? && Overflows(p, call.c) && k < 20 { assert Offsets(p, call)[k] == k; }
  }

  // What PutCh has to do, case by case.
  lemma CharacterIs(text: seq<int>, log: seq<int>, p: Place, attr: int, c: int)
    requires |text| == VGA_BYTES && |log| == SCROLLBACK_BUF_SIZE && Within(p) && 0 <= p.y <= H
    ensures Typed(text, p.y, p.x, attr, c) == if Printable(c) then WithCell(text, p.y * W + p.x, c, attr) else text
    ensures Overflows(p, c) ==> Logged(log, p, Put(c)) == OVERFLOW_MESSAGE + log[OVERFLOW_LENGTH..]
    ensures !Overflows(p, c) && !Printable(c) ==> Logged(log, p, Put(c)) == log
  {
  }

  // The log with i letters of the overflow message.
  function Begun(log: seq<int>, i: int): (r: seq<int>)
    requires |log| == SCROLLBACK_BUF_SIZE && 0 <= i <= OVERFLOW_LENGTH
    ensures |r| == SCROLLBACK_BUF_SIZE
  {
    OVERFLOW_MESSAGE[..i] + log[i..]
  }

  lemma BegunEnds(log: seq<int>)
    requires |log| == SCROLLBACK_BUF_SIZE
    ensures Begun(log, 0) == log && Begun(log, OVERFLOW_LENGTH) == OVERFLOW_MESSAGE + log[OVERFLOW_LENGTH..]
  {
  }

  // A letter of the overflow message, and the line feed behind it.
  lemma OneMoreLetter(log: seq<int>, i: int, y: int)
    requires |log| == SCROLLBACK_BUF_SIZE && 0 <= i < OVERFLOW_LENGTH
    ensures var p, c := Place(i, y, 0), OVERFLOW_MESSAGE[i];
            && SPACE <= c < 128 && !NewLine(i, c) && NextPlace(p, Put(c)) == Place(i + 1, Scrolled(y), 0)
            && Logged(Begun(log, i), p, Put(c)) == Begun(log, i + 1)
  {
    hide NextPlace, Logged, Scrolled;
    IsLetter(i);
    LetterAt(Begun(log, i), Place(i, y, 0), OVERFLOW_MESSAGE[i]);
    Overwritten(OVERFLOW_MESSAGE, log, i);
  }

  lemma IsLetter(i: int)
    requires 0 <= i < OVERFLOW_LENGTH
    ensures SPACE <= OVERFLOW_MESSAGE[i] < 128
  {
  }

  lemma LetterAt(log: seq<int>, p: Place, c: int)
    requires |log| == SCROLLBACK_BUF_SIZE && 0 <= p.x < W - 1 && p.b == 0 && SPACE <= c < 128
    ensures !NewLine(p.x, c) && NextPlace(p, Put(c)) == Place(p.x + 1, Scrolled(p.y), 0)
    ensures Logged(log, p, Put(c)) == log[p.x := c]
  {
  }

  lemma Overwritten(message: seq<int>, log: seq<int>, i: int)
    requires 0 <= i < |message| <= |log|
    ensures (message[..i] + log[i..])[i := message[i]] == message[..i + 1] + log[i + 1..]
  {
  }

  lemma LineFeedAt(log: seq<int>, y: int)
    requires |log| == SCROLLBACK_BUF_SIZE
    ensures var p := Place(OVERFLOW_LENGTH, y, 0);
            NextPlace(p, Put(0x0A)) == Place(0, Scrolled(y + 1), 1) && Logged(log, p, Put(0x0A)) == log
  {
  }

  lemma ScrolledTwice(y: int)
    ensures Scrolled(y) < H && Scrolled(Scrolled(y)) == Scrolled(y) && (y >= 1 ==> Scrolled(y) >= 1)
  {
  }

  lemma FilledIsBlank(text: seq<int>, attr: int)
    requires |text| == VGA_BYTES && IsFilled(text, W, H * W, SPACE, attr)
    ensures BlankFrom(text, 1)
  {
    forall r: int, x: int | 1 <= r < H && 0 <= x < W ensures CharAt(text, r, x) == SPACE {
      assert 2 * W <= 2 * (r * W + x) < 2 * (H * W);
    }
  }

  lemma ClearedLog(log: seq<int>, l: int, x: int)
    requires |log| == SCROLLBACK_BUF_SIZE && 0 <= l < LINES && 0 <= x < W
    requires forall k | 0 <= k < |log| :: log[k] == SPACE
    ensures LogAt(log, l, x) == SPACE
  {
    assert 0 <= l * W + x < |log|;
  }

  // A blank log agrees with the screen exactly when the rows from the cursor on are blank.
  lemma BlankAgrees(text: seq<int>, log: seq<int>, y: int)
    requires |text| == VGA_BYTES && |log| == SCROLLBACK_BUF_SIZE && 1 <= y < H
    requires forall k | 0 <= k < |log| :: log[k] == SPACE
    ensures Agree(text, log, -y) <==> BlankFrom(text, y)
  {
    forall l: int, x: int | 0 <= l < LINES && 0 <= x < W ensures LogAt(log, l, x) == SPACE {
      ClearedLog(log, l, x);
    }
    if Agree(text, log, -y) {
      forall r: int, x: int | 1 <= r < H && y <= r && 0 <= x < W ensures CharAt(text, r, x) == SPACE {
        assert CharAt(text, r, x) == LogAt(log, -y + r, x);
      }
    }
  }

  // ---------------------------------------------------------------- lib.c

  // Forward copy within one array; source behind destination.
  method Memcpy(a: array<int>, dest: nat, src: nat, count: nat)
    requires dest <= src && src + count <= a.Length
    modifies a
    ensures forall k | dest <= k < dest + count :: a[k] == old(a[k + (src - dest)])
    ensures forall k | 0 <= k < a.Length && !(dest <= k < dest + count) :: a[k] == old(a[k])
  {
    var k := 0;
    while k != count
      invariant k <= count
      invariant forall j | dest <= j < dest + k :: a[j] == old(a[j + (src - dest)])
      invariant forall j | 0 <= j < a.Length && !(dest <= j < dest + k) :: a[j] == old(a[j])
      decreases count - k
    {
      a[dest + k] := a[src + k];
      k := k + 1;
    }
  }

  method Memset(a: array<int>, dest: nat, value: int, count: nat)
    requires dest + count <= a.Length
    modifies a
    ensures forall k | 0 <= k < a.Length :: a[k] == if dest <= k < dest + count then value else old(a[k])
  {
    var k := 0;
    while k != count
      invariant k <= count
      invariant forall j | 0 <= j < a.Length :: a[j] == if dest <= j < dest + k then value else old(a[j])
      decreases count - k
    {
      a[dest + k] := value;
      k := k + 1;
    }
  }

  // memsetw() of the 16-bit value with lower byte c and upper byte attr.
  method Memsetw(a: array<int>, dest: nat, c: int, attr: int, count: nat)
    requires 2 * (dest + count) <= a.Length
    modifies a
    ensures IsFilled(a[..], dest, dest + count, c, attr)
    ensures forall k | 0 <= k < a.Length && !(2 * dest <= k < 2 * (dest + count)) :: a[k] == old(a[k])
  {
    var k := 0;
    while k != count
      invariant k <= count
      invariant forall j | 2 * dest <= j < 2 * (dest + k) :: a[j] == if j % 2 == 0 then c else attr
      invariant forall j | 0 <= j < a.Length && !(2 * dest <= j < 2 * (dest + k)) :: a[j] == old(a[j])
      decreases count - k
    {
      a[2 * (dest + k)], a[2 * (dest + k) + 1] := c, attr;
      k := k + 1;
    }
  }

  // "scrollback buffer initialized\n"
  const INIT_MESSAGE: seq<int> := [115, 99, 114, 111, 108, 108, 98, 97, 99, 107, 32, 98, 117, 102, 102, 101, 114, 32,
                                   105, 110, 105, 116, 105, 97, 108, 105, 122, 101, 100, 0x0A]

  class Screen {
    const text: array<int>
    const log: array<int>     // what buf_scrollback points to once it is set
    var logging: bool         // buf_scrollback != NULL
    var attrib: int
    var csrX: int
    var csrY: int
    var bufX: int
    var bufY: int

    ghost predicate Shape()
      reads this
    {
      text.Length == VGA_BYTES && log.Length == SCROLLBACK_BUF_SIZE && text != log && 0 <= attrib < 256
    }

    // The cursor is below the status row, and at most one row below the screen.
    ghost predicate Placed()
      reads this
    {
      Shape() && 0 <= csrX < W && 1 <= csrY <= H && bufX == csrX && 0 <= bufY
    }

    // And on the screen.
    ghost predicate Ready()
      reads this
    {
      Placed() && csrY < H
    }

    // And the log agrees with the screen.
    ghost predicate Valid()
      reads this, text, log
    {
      Ready() && (logging ==> Agree(text[..], log[..], bufY - csrY))
    }

    ghost function Here(): Place
      reads this
    {
      Place(csrX, csrY, bufY)
    }

    constructor ()
      ensures Shape() && fresh(text) && fresh(log) && !logging
      ensures csrX == csrY == bufX == bufY == 0
    {
      text, log := new int[VGA_BYTES], new int[SCROLLBACK_BUF_SIZE];
      logging, attrib, csrX, csrY, bufX, bufY := false, ATTRIB_BLANK, 0, 0, 0, 0;
    }

    // init_video() with cls(): only the colour of the status row changes, all other rows are blank.
    method InitVideo()
      requires Shape() && !logging && 0 <= bufY < SCROLLBACK_BUF_SIZE
      modifies this, text
      ensures Valid() && !logging && csrX == 0 && csrY == 1 && bufY == old(bufY) + 1 && attrib == old(attrib)
      ensures BlankFrom(text[..], 1) && IsFilled(text[..], 80, 2000, 0x20, attrib)
      ensures forall x | 0 <= x < W :: text[2 * x] == old(text[2 * x]) && text[2 * x + 1] == 0x1F
    {
      ColourStatus();
      ClearRows();
      csrX, csrY, bufX, bufY := 0, 0, 0, bufY + 1;
      csrY := 1;
      FilledIsBlank(text[..], attrib);
    }

    // screen.c:133-134
    method ColourStatus()
      requires text.Length == VGA_BYTES
      modifies text
      ensures forall x | 0 <= x < W :: text[2 * x] == old(text[2 * x]) && text[2 * x + 1] == ATTRIB_STATUS
    {
      var i := 0;
      while i < W
        invariant 0 <= i <= W
        invariant forall x | 0 <= x < W ::
          text[2 * x] == old(text[2 * x]) && (x < i ==> text[2 * x + 1] == ATTRIB_STATUS)
      {
        text[2 * i + 1] := ATTRIB_STATUS;
        i := i + 1;
      }
    }

    // screen.c:139-140
    method ClearRows()
      requires text.Length == VGA_BYTES
      modifies text
      ensures forall k | 0 <= k < 2 * W :: text[k] == old(text[k])
      ensures IsFilled(text[..], W, H * W, SPACE, attrib)
    {
      var i := 1;
      while i < H
        invariant 1 <= i <= H
        invariant forall k | 0 <= k < 2 * W :: text[k] == old(text[k])
        invariant IsFilled(text[..], W, i * W, SPACE, attrib)
      {
        ghost var before := text[..];
        Memsetw(text, i * W, SPACE, attrib, W);
        FillMore(before, text[..], i * W, i * W + W, SPACE, attrib);
        i := i + 1;
      }
    }

    // In range: to a column of the screen, to a row below the status row, and to a line of the log.
    method Locate(x: int, dy: int)
      requires Ready() && MoveInRange(Here(), Move(x, dy))
      modifies this`csrX, this`csrY, this`bufX, this`bufY
      ensures Ready() && Here() == NextPlace(old(Here()), Move(x, dy)) && (old(Valid()) ==> Valid())
    {
      csrX := x;
      csrY := csrY + dy;
      bufX := csrX;
      bufY := bufY + dy;
    }

    method Scroll()
      requires Shape() && 1 <= csrY <= H
      modifies text, this`csrY
      ensures csrY == if old(csrY) < H then old(csrY) else H - 1
      ensures old(csrY) < H ==> text[..] == old(text[..])
      ensures old(csrY) == H ==> MovedUp(old(text[..]), text[..])
      ensures text[..2 * W] == old(text[..2 * W])
    {
      hide MovedUp, IsFilled;
      if csrY >= H {
        ghost var before := text[..];
        var temp := csrY - H + 1;
        assert temp == 1;
        Memcpy(text, W * 2, (temp + 1) * W * 2, (H - temp) * W * 2);
        ghost var copied := text[..];
        assert forall k | 2 * W <= k < 2 * (H * W) :: copied[k] == before[k + 2 * W];
        Memsetw(text, (H - temp) * W, SPACE, ATTRIB_BLANK, W);
        csrY := H - 1;
        RowsMoved(before, copied, text[..]);
      }
    }

    // A printable character needs a line of the log once there is one. From one row below the screen on, where only
    // the overflow message starts, it breaks no line.
    method PutCh(c: int)
      requires Placed() && -128 <= c < 128 && (csrY == H ==> !NewLine(csrX, c))
      requires logging ==> PrintBelow(Here(), Put(c))
      modifies text, log, this`csrX, this`csrY, this`bufX, this`bufY
      ensures Ready() && Here() == NextPlace(old(Here()), Put(c))
      ensures log[..] == if logging then Logged(old(log[..]), old(Here()), Put(c)) else old(log[..])
      // the status row stays
      ensures text[..2 * W] == old(text[..2 * W])
      // unless the line number overflows, the character appears at the cursor, and below the last row the screen moves
      // up
      ensures !Overflows(old(Here()), c) ==>
        var t := Typed(old(text[..]), old(csrY), old(csrX), attrib, c);
        if old(csrY) + (if NewLine(old(csrX), c) then 1 else 0) == H then MovedUp(t, text[..]) else text[..] == t
      // and screen and log go on to agree
      ensures !Overflows(old(Here()), c) && old(Valid()) ==> Valid()
      // below the cursor blank rows stay blank, and a new line starts in one
      ensures !Overflows(old(Here()), c) && old(BlankFrom(text[..], csrY + 1)) ==>
        BlankFrom(text[..], csrY + 1) && (NewLine(old(csrX), c) ==> BlankFrom(text[..], csrY))
      decreases if Overflows(Here(), c) then 2 else 0, 2
    {
      hide Agree, BlankFrom, MovedUp, Logged, Typed;
      ghost var over := Overflows(Here(), c);
      ghost var below := BlankFrom(text[..], csrY + 1) && !over;
      ghost var agree := logging && csrY < H && Agree(text[..], log[..], bufY - csrY) && !over;
      Type(c);
      ScrollBoth(below, NewLine(old(csrX), c), agree);
    }

    // The cases of putch(), and the line break at the right edge (screen.c:174-241).
    method Type(c: int)
      requires Placed() && -128 <= c < 128 && (csrY == H ==> !NewLine(csrX, c))
      requires logging ==> PrintBelow(Here(), Put(c))
      modifies text, log, this`csrX, this`csrY, this`bufX, this`bufY
      ensures Placed() && text[..2 * W] == old(text[..2 * W])
      ensures log[..] == if logging then Logged(old(log[..]), old(Here()), Put(c)) else old(log[..])
      ensures Overflows(old(Here()), c) ==> csrY < H && Here() == NextPlace(old(Here()), Put(c))
      ensures !Overflows(old(Here()), c) ==>
        var down := if NewLine(old(csrX), c) then 1 else 0;
        && Here() == Place(NextX(old(csrX), c), old(csrY) + down, old(bufY) + down)
        && text[..] == Typed(old(text[..]), old(csrY), old(csrX), attrib, c)
        && (logging && old(csrY) < H && old(Agree(text[..], log[..], bufY - csrY)) ==>
              Agree(text[..], log[..], bufY - csrY))
        && (old(BlankFrom(text[..], csrY + 1)) ==> BlankFrom(text[..], old(csrY) + 1))
      decreases if Overflows(Here(), c) then 2 else 0, 1
    {
      hide Agree, BlankFrom, MovedUp, Logged, Typed, WithCell;
      CharacterIs(text[..], log[..], Here(), attrib, c);
      if c == 0x08 {
        if csrX != 0 { csrX := csrX - 1; }
        bufX := csrX;
      } else if c == 0x09 {
        csrX := (csrX + 8) / 8 * 8;
        bufX := csrX;
      } else if c == 0x0D {
        csrX := 0;
        bufX := csrX;
      } else if c == 0x0A {
        LineFeed();
      } else if c >= SPACE {
        Write(c);
      }
      if csrX >= W {
        csrX := 0;
        csrY := csrY + 1;
        bufX := csrX;
        bufY := bufY + 1;
      }
    }

    // screen.c:203-215
    method LineFeed()
      requires Placed() && csrY < H
      modifies text, log, this`csrX, this`csrY, this`bufX, this`bufY
      ensures Placed() && text[..2 * W] == old(text[..2 * W])
      ensures Overflows(old(Here()), 0x0A) ==>
        && csrY < H && Here() == NextPlace(old(Here()), Put(0x0A))
        && log[..] == if logging then Logged(old(log[..]), old(Here()), Put(0x0A)) else old(log[..])
      ensures !Overflows(old(Here()), 0x0A) ==>
        Here() == Place(0, old(csrY) + 1, old(bufY) + 1) && text[..] == old(text[..]) && log[..] == old(log[..])
      decreases if Overflows(Here(), 0x0A) then 2 else 0, 0
    {
      hide Agree, BlankFrom, MovedUp;
      csrX := 0;
      csrY := csrY + 1;
      bufX := csrX;
      bufY := bufY + 1;
      if bufY > SCROLLBACK_BUF_SIZE {
        bufY := 0;
        PrintOverflow();
      }
    }

    // printf("Scrollback overflow!\n") (screen.c:211)
    method PrintOverflow()
      requires Placed() && csrX == 0 && bufY == 0
      modifies text, log, this`csrX, this`csrY, this`bufX, this`bufY
      ensures Ready() && Here() == Place(0, Scrolled(Scrolled(old(csrY)) + 1), 1)
      ensures log[..] == if logging then OVERFLOW_MESSAGE + old(log[..])[OVERFLOW_LENGTH..] else old(log[..])
      ensures text[..2 * W] == old(text[..2 * W])
      decreases 1, 0
    {
      hide Agree, BlankFrom, MovedUp, Typed, Logged, NextPlace, Scrolled, Begun;
      var i := 0;
      ghost var was, y := log[..], csrY;
      ScrolledTwice(y);
      BegunEnds(was);
      while i < OVERFLOW_LENGTH
        invariant 0 <= i <= OVERFLOW_LENGTH && Placed() && csrX == i && bufY == 0
        invariant csrY == if i == 0 then y else Scrolled(y)
        invariant log[..] == if logging then Begun(was, i) else was
        invariant text[..2 * W] == old(text[..2 * W])
      {
        OneMoreLetter(was, i, csrY);
        PutCh(OVERFLOW_MESSAGE[i]);
        i := i + 1;
      }
      LineFeedAt(log[..], csrY);
      PutCh(0x0A);
    }

    // scroll() at the end of putch().
    method ScrollBoth(ghost below: bool, ghost down: bool, ghost agree: bool)
      requires Shape() && 1 <= csrY <= H
      requires agree ==> Agree(text[..], log[..], bufY - csrY)
      requires below ==> BlankFrom(text[..], if down then csrY else csrY + 1)
      modifies text, this`csrY
      ensures csrY == Scrolled(old(csrY))
      ensures if old(csrY) < H then text[..] == old(text[..]) else MovedUp(old(text[..]), text[..])
      ensures agree ==> Agree(text[..], log[..], bufY - csrY)
      ensures text[..2 * W] == old(text[..2 * W])
      ensures below ==> BlankFrom(text[..], csrY + 1) && (down ==> BlankFrom(text[..], csrY))
    {
      hide Agree, BlankFrom, MovedUp;
      ghost var d, before, y := bufY - csrY, text[..], csrY;
      Scroll();
      if y == H {
        ScrollBlank(before, text[..]);
        if agree { ScrollAgrees(before, text[..], log[..], d); }
      }
      LessBlank(text[..], csrY);
    }

    // The printable case of putch() (screen.c:219-230).
    method Write(c: int)
      requires Placed() && SPACE <= c < 128 && (logging ==> bufY < LINES)
      modifies text, log, this`csrX, this`bufX
      ensures csrX == old(csrX) + 1 == bufX
      ensures logging && csrY < H && old(Agree(text[..], log[..], bufY - csrY)) ==>
        Agree(text[..], log[..], bufY - csrY)
      ensures log[..] == if logging then Logged(old(log[..]), old(Here()), Put(c)) else old(log[..])
      ensures text[..] == WithCell(old(text[..]), csrY * W + old(csrX), c, attrib)
      ensures text[..2 * W] == old(text[..2 * W])
      ensures old(BlankFrom(text[..], csrY + 1)) ==> BlankFrom(text[..], csrY + 1)
    {
      hide BlankFrom, Agree;
      if logging && csrY < H && Agree(text[..], log[..], bufY - csrY) {
        WriteAgrees(text[..], log[..], bufY - csrY, csrY, csrX, c, attrib);
      }
      if BlankFrom(text[..], csrY + 1) { WriteBlank(text[..], csrY, csrX, c, attrib); }
      var at := csrY * W + csrX;
      text[2 * at], text[2 * at + 1] := c, attrib;
      csrX := csrX + 1;
      if logging {
        log[bufY * W + bufX] := c;
      }
      bufX := csrX;
      assert text[..] == WithCell(old(text[..]), csrY * W + old(csrX), c, attrib);
      assert logging ==> log[..] == old(log[..])[bufY * W + old(csrX) := c];
    }

    // A text that stays above the last line.
    method Puts(s: seq<int>)
      requires Valid() && forall c | c in s :: -128 <= c < 128
      requires bufY + LinesOf(csrX, s) < if logging then LINES else SCROLLBACK_BUF_SIZE
      modifies text, log, this`csrX, this`csrY, this`bufX, this`bufY
      ensures Valid() && csrX == EndX(old(csrX), s) && bufY == old(bufY) + LinesOf(old(csrX), s)
      ensures text[..2 * W] == old(text[..2 * W])
      ensures old(BlankFrom(text[..], csrY + 1)) ==>
        BlankFrom(text[..], csrY + 1) && (s != [] && s[|s| - 1] == 0x0A ==> BlankFrom(text[..], csrY))
      ensures !logging ==> log[..] == old(log[..])
    {
      hide BlankFrom, Agree, MovedUp, LinesOf, EndX;
      var i := 0;
      NothingTyped(csrX);
      while i < |s|
        invariant 0 <= i <= |s| && Valid()
        invariant csrX == EndX(old(csrX), s[..i]) && bufY == old(bufY) + LinesOf(old(csrX), s[..i])
        invariant text[..2 * W] == old(text[..2 * W]) && (!logging ==> log[..] == old(log[..]))
        invariant old(BlankFrom(text[..], csrY + 1)) ==>
          BlankFrom(text[..], csrY + 1) && (i > 0 && s[i - 1] == 0x0A ==> BlankFrom(text[..], csrY))
      {
        assert s[..i + 1] == s[..i] + [s[i]];
        LinesSnoc(old(csrX), s[..i], s[i]);
        LinesPrefix(old(csrX), s, i);
        assert bufY < (if logging then LINES else SCROLLBACK_BUF_SIZE) && s[i] in s;
        PutCh(s[i]);
        i := i + 1;
      }
      assert s[..|s|] == s;
    }

    // The log begins. It agrees with the screen from here on exactly if all rows from the cursor on are blank, which
    // they are after the message's line feed if all below the cursor were blank before.
    method InitVideoScrollback()
      requires Valid() && !logging && bufY + LinesOf(csrX, INIT_MESSAGE) < SCROLLBACK_BUF_SIZE
      modifies text, log, this
      ensures Ready() && logging && bufY == 0 && attrib == old(attrib)
      ensures Valid() <==> BlankFrom(text[..], csrY)
      ensures old(BlankFrom(text[..], csrY + 1)) ==> Valid()
      ensures text[..2 * W] == old(text[..2 * W])
    {
      hide BlankFrom, Agree, LinesOf, EndX;
      Puts(INIT_MESSAGE);
      Memset(log, 0, SPACE, SCROLLBACK_BUF_SIZE);
      BlankAgrees(text[..], log[..], csrY);
      logging, bufY := true, 0;
    }

    // Any sequence of calls in range whose log writes stay inside. Unless the line number overflows on the way, screen
    // and log go on to agree.
    method Perform(calls: seq<Call>)
      requires Ready() && MovesInRange(Here(), calls) && forall call | call in calls :: IsTyped(call)
      requires logging ==> PrintsBelow(Here(), calls)
      modifies text, log, this`csrX, this`csrY, this`bufX, this`bufY
      ensures Ready() && Here() == EndPlace(old(Here()), calls)
      ensures log[..] == if logging then AllLogged(old(log[..]), old(Here()), calls) else old(log[..])
      ensures old(Valid()) && NeverOverflows(old(Here()), calls) ==> Valid()
      ensures text[..2 * W] == old(text[..2 * W])
    {
      hide BlankFrom, Agree, MovedUp, EndPlace, MovesInRange, PrintsBelow, NeverOverflows, AllLogged, NextPlace, Logged;
      var i := 0;
      ghost var start, was := Here(), log[..];
      ghost var good := Valid() && NeverOverflows(start, calls);
      assert calls[0..] == calls;
      while i < |calls|
        invariant 0 <= i <= |calls| && Ready() && MovesInRange(Here(), calls[i..])
        invariant logging ==> PrintsBelow(Here(), calls[i..])
        invariant EndPlace(Here(), calls[i..]) == EndPlace(start, calls)
        invariant if logging then AllLogged(log[..], Here(), calls[i..]) == AllLogged(was, start, calls)
            else log[..] == was
        invariant good ==> Valid() && NeverOverflows(Here(), calls[i..])
        invariant text[..2 * W] == old(text[..2 * W])
      {
        FirstCall(Here(), calls[i..], log[..], logging);
        assert calls[i..][0] == calls[i] && calls[i] in calls && calls[i..][1..] == calls[i + 1..];
        match calls[i] {
          case Put(c) => PutCh(c);
          case Move(x, dy) => Locate(x, dy);
        }
        i := i + 1;
      }
      LastCall(Here(), calls[i..], log[..]);
    }
  }

  lemma NothingTyped(x: int)
    requires 0 <= x < W
    ensures EndX(x, []) == x && LinesOf(x, []) == 0
  {
  }

  lemma FillMore(text: seq<int>, after: seq<int>, lo: int, hi: int, c: int, attr: int)
    requires |text| == |after| == VGA_BYTES && W <= lo <= hi && 2 * hi <= VGA_BYTES
    requires IsFilled(text, W, lo, c, attr) && IsFilled(after, lo, hi, c, attr)
    requires forall k | 0 <= k < VGA_BYTES && !(2 * lo <= k < 2 * hi) :: after[k] == text[k]
    ensures IsFilled(after, W, hi, c, attr)
  {
  }

  // A character is a signed char.
  predicate IsTyped(call: Call)
  {
    call.Put? ==> -128 <= call.c < 128
  }

  predicate NeverOverflows(p: Place, calls: seq<Call>)
    requires Within(p) && MovesInRange(p, calls)
    decreases |calls|
  {
    calls == [] ||
    ((calls[0].Put? ==> !Overflows(p, calls[0].c)) && NeverOverflows(NextPlace(p, calls[0]), calls[1..]))
  }

  // The log after a sequence of calls.
  function AllLogged(log: seq<int>, p: Place, calls: seq<Call>): seq<int>
    requires |log| == SCROLLBACK_BUF_SIZE && Within(p) && MovesInRange(p, calls) && PrintsBelow(p, calls)
    decreases |calls|
  {
    if calls == [] then log else AllLogged(Logged(log, p, calls[0]), NextPlace(p, calls[0]), calls[1..])
  }

  lemma FirstCall(p: Place, calls: seq<Call>, log: seq<int>, logging: bool)
    requires Within(p) && calls != [] && MovesInRange(p, calls) && |log| == SCROLLBACK_BUF_SIZE
    requires logging ==> PrintsBelow(p, calls)
    ensures MoveInRange(p, calls[0])
    ensures var q := NextPlace(p, calls[0]);
            && Within(q) && MovesInRange(q, calls[1..]) && EndPlace(q, calls[1..]) == EndPlace(p, calls)
            && (NeverOverflows(p, calls) ==>
                  (calls[0].Put? ==> !Overflows(p, calls[0].c)) && NeverOverflows(q, calls[1..]))
            && (logging ==>
                  && PrintBelow(p, calls[0]) && PrintsBelow(q, calls[1..])
                  && (calls[0].Move? ==> Logged(log, p, calls[0]) == log)
                  && AllLogged(Logged(log, p, calls[0]), q, calls[1..]) == AllLogged(log, p, calls))
  {
  }

  lemma LastCall(p: Place, calls: seq<Call>, log: seq<int>)
    requires Within(p) && calls == [] && |log| == SCROLLBACK_BUF_SIZE
    ensures MovesInRange(p, calls) && EndPlace(p, calls) == p && PrintsBelow(p, calls)
    ensures AllLogged(log, p, calls) == log
  {
  }
}
