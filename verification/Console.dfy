/** The console's colour menu, console.c: the Alt-c, Alt-o, Alt-l chord that opens and
    closes it, the keys it obeys, and the screen beneath it. */
module Console {

  // ---- The chord ----

  const CTRL_H := 8
  const CTRL_P := 16
  const CTRL_U := 21
  const DEL := 127
  const ALT_C := 199
  const ALT_L := 208
  const ALT_O := 211

  /** A key code, whether the input buffer is full when it arrives, and whether nothing
      has been typed on the line. */
  datatype Key = Key(code: nat, full: bool, blank: bool)

  datatype Chord = Chord(flagC: bool, flagO: bool, menu: bool)

  /** Keys that consoleintr handles by name. */
  predicate Special(c: nat) {
    c == CTRL_P || c == CTRL_U || c == CTRL_H || c == DEL || c == ALT_C || c == ALT_O || c == ALT_L
  }

  /** Keys that leave no trace: the zero code, and with the menu closed a character
      for which there is no room. */
  predicate Ignored(s: Chord, k: Key) {
    !Special(k.code) && (k.code == 0 || (!s.menu && k.full))
  }

  /** What a key does to the flags and the menu. */
  function Pressed(s: Chord, k: Key): Chord {
    if k.code == ALT_C then s.(flagC := true, flagO := false)
    else if k.code == ALT_O then
      if s.flagO then s.(flagC := false, flagO := false)
      else if s.flagC then s.(flagO := true)
      else s.(flagC := false, flagO := false)
    else if k.code == ALT_L then Chord(false, false, if s.flagC && s.flagO then !s.menu else s.menu)
    else if Special(k.code) then s.(flagC := false, flagO := false)
    else if Ignored(s, k) then s
    else s.(flagC := false, flagO := false)
  }

  const Start := Chord(false, false, false)

  function After(keys: seq<Key>): Chord {
    if keys == [] then Start else Pressed(After(keys[..|keys| - 1]), keys[|keys| - 1])
  }

  /** The codes of a stream, without those of ignored keys. */
  function Codes(keys: seq<Key>): seq<nat> {
    if keys == [] then []
    else
      var before, k := keys[..|keys| - 1], keys[|keys| - 1];
      if Ignored(After(before), k) then Codes(before) else Codes(before) + [k.code]
  }

  /** The last codes are the chord, or as much of it as came so far. */
  predicate EndsC(s: seq<nat>) {
    |s| >= 1 && s[|s| - 1] == ALT_C
  }

  predicate EndsCO(s: seq<nat>) {
    |s| >= 2 && s[|s| - 2] == ALT_C && s[|s| - 1] == ALT_O
  }

  predicate EndsCOL(s: seq<nat>) {
    |s| >= 3 && s[|s| - 3] == ALT_C && s[|s| - 2] == ALT_O && s[|s| - 1] == ALT_L
  }

  /** The flags remember how much of the chord the last codes are. */
  lemma {:induction false} FlagsSay(keys: seq<Key>)
    ensures var s, codes := After(keys), Codes(keys);
            (s.flagO <==> EndsCO(codes)) && (s.flagC && !s.flagO <==> EndsC(codes)) && (s.flagO ==> s.flagC)
  {
    if keys != [] {
      FlagsSay(keys[..|keys| - 1]);
    }
  }

  /** Over every stream of keys: a key toggles the menu exactly when it counts and the
      last three codes that count are Alt-c, Alt-o, Alt-l. */
  lemma ChordToggles(keys: seq<Key>, k: Key)
    ensures After(keys + [k]).menu != After(keys).menu <==>
            !Ignored(After(keys), k) && EndsCOL(Codes(keys + [k]))
  {
    hide Pressed;
    var all := keys + [k];
    assert all[..|all| - 1] == keys;
    FlagsSay(keys);
    OneKey(After(keys), k);
  }

  lemma OneKey(s: Chord, k: Key)
    ensures Pressed(s, k).menu != s.menu <==> k.code == ALT_L && s.flagC && s.flagO
    ensures k.code == ALT_L ==> !Ignored(s, k)
  {
  }

  // ---- The screen ----

  const SCREEN := 2000
  const MENU := 230

  /** A cell is a character in the low byte and its colours in the high one. */
  function Char(x: bv16): bv16 {
    x & 0xff
  }

  /** Where cell i of the menu stands: rows of 23 from column 57 on. */
  function Pos(i: nat): (p: nat)
    requires i < MENU
    ensures p < SCREEN && InMenu(p) && Index(p) == i
  {
    57 + 80 * (i / 23) + i % 23
  }

  predicate InMenu(p: nat) {
    p / 80 < 10 && 57 <= p % 80
  }

  function Index(p: nat): (i: nat)
    requires InMenu(p)
    ensures i < MENU
  {
    p / 80 * 23 + (p % 80 - 57)
  }

  lemma PosOfIndex(p: nat)
    requires InMenu(p)
    ensures Pos(Index(p)) == p
  {
    RowAndColumn(p / 80, p % 80 - 57);
  }

  lemma RowAndColumn(q: nat, r: nat)
    requires r < 23
    ensures (q * 23 + r) / 23 == q && (q * 23 + r) % 23 == r
  {
  }

  /** A character as the backup array keeps it: the low byte of the cell. */
  function Low(x: bv16): bv8 {
    (x & 0xff) as bv8
  }

  /** And as it comes back: a char, so sign-extended. */
  function Extended(b: bv8): bv16 {
    if b >= 0x80 then 0xff00 | (b as bv16) else b as bv16
  }

  /** A colour has nothing in the character's byte. */
  predicate IsColor(color: bv16) {
    color & 0xff == 0
  }

  /** A cell's character in another colour. */
  function Tint(x: bv16, color: bv16): bv16 {
    (x & 0xff) | color
  }

  /** A saved character in a colour. */
  function Merge(b: bv8, color: bv16): bv16 {
    Extended(b) | color
  }

  lemma CharBack(x: bv16, color: bv16)
    requires IsColor(color)
    ensures Char(Merge(Low(x), color)) == Char(x)
    ensures Merge(Low(x), color) == Tint(x, color) <==> Char(x) < 0x80 || color == 0xff00
  {
  }

  lemma Recoloured(x: bv16, color: bv16)
    requires IsColor(color)
    ensures Char(Tint(x, color)) == Char(x)
  {
  }

  /** saveBackground. */
  function Saved(crt: seq<bv16>): (r: seq<bv8>)
    requires |crt| == SCREEN
    ensures |r| == MENU && forall i {:trigger r[i]} :: 0 <= i < MENU ==> r[i] == Low(crt[Pos(i)])
  {
    seq(MENU, i requires 0 <= i < MENU => Low(crt[Pos(i)]))
  }

  /** loadBackground. */
  function Loaded(crt: seq<bv16>, backup: seq<bv8>, color: bv16): (r: seq<bv16>)
    requires |crt| == SCREEN && |backup| == MENU
    ensures |r| == SCREEN
    ensures forall p {:trigger r[p]} :: 0 <= p < SCREEN ==>
              r[p] == if InMenu(p) then Merge(backup[Index(p)], color) else crt[p]
  {
    seq(SCREEN, p requires 0 <= p < SCREEN => if InMenu(p) then Merge(backup[Index(p)], color) else crt[p])
  }

  /** showMenu. */
  function Shown(crt: seq<bv16>, menustr: seq<bv16>): (r: seq<bv16>)
    requires |crt| == SCREEN && |menustr| == MENU
    ensures |r| == SCREEN
    ensures forall p {:trigger r[p]} :: 0 <= p < SCREEN ==>
              r[p] == if InMenu(p) then Tint(menustr[Index(p)], 0x0f00) else crt[p]
  {
    seq(SCREEN, p requires 0 <= p < SCREEN => if InMenu(p) then Tint(menustr[Index(p)], 0x0f00) else crt[p])
  }

  /** Cells from .. to - 1 given the colours color. */
  function Painted(crt: seq<bv16>, from: nat, to: nat, color: bv16): (r: seq<bv16>)
    ensures |r| == |crt|
    ensures forall p {:trigger r[p]} :: 0 <= p < |crt| ==>
              r[p] == if from <= p < to then Tint(crt[p], color) else crt[p]
  {
    seq(|crt|, p requires 0 <= p < |crt| => if from <= p < to then Tint(crt[p], color) else crt[p])
  }

  /** computeLowerBound: the first of the ten cells of an entry. */
  function LowerBound(x: nat): nat {
    (if x % 2 == 1 then 149 else 138) + x / 2 * 80
  }

  lemma EntryInMenu(x: nat, p: nat)
    requires x < 16 && LowerBound(x) <= p < LowerBound(x) + 10
    ensures p < SCREEN && InMenu(p)
  {
  }

  // ---- Keys while the menu is open ----

  /** clrs[]: the eight colours, each as foreground and as background. */
  function Clrs(sel: nat): bv16 {
    match sel
    case 2 => 0x0100
    case 3 => 0x1000
    case 4 => 0x0200
    case 5 => 0x2000
    case 6 => 0x0300
    case 7 => 0x3000
    case 8 => 0x0400
    case 9 => 0x4000
    case 10 => 0x0500
    case 11 => 0x5000
    case 12 => 0x0600
    case 13 => 0x6000
    case 14 => 0x0700
    case 15 => 0x7000
    case _ => 0x0000
  }

  function Mix(color: bv16, mask: bv16, x: bv16, y: bv16): bv16 {
    (color & mask) | (x + y)
  }

  /** getColor and getBrightColor: one of the two colours replaced. */
  function NewColor(color: bv16, sel: nat, bright: bool): bv16 {
    if sel % 2 == 1 then Mix(color, 0x0fff, Clrs(sel), if bright then 0x8000 else 0)
    else Mix(color, 0xf0ff, Clrs(sel), if bright then 0x0800 else 0)
  }

  lemma ColorHasNoChar(color: bv16, sel: nat, bright: bool)
    requires IsColor(color)
    ensures IsColor(NewColor(color, sel, bright))
  {
    hide IsColor, Clrs, Mix;
    TableIsColors(sel);
    BrightIsColor();
    if sel % 2 == 1 {
      MixIsColor(color, 0x0fff, Clrs(sel), if bright then 0x8000 else 0);
    } else {
      MixIsColor(color, 0xf0ff, Clrs(sel), if bright then 0x0800 else 0);
    }
  }

  lemma TableIsColors(sel: nat)
    ensures IsColor(Clrs(sel))
  {
  }

  lemma BrightIsColor()
    ensures IsColor(0x8000) && IsColor(0x0800) && IsColor(0)
  {
  }

  lemma MixIsColor(color: bv16, mask: bv16, x: bv16, y: bv16)
    requires IsColor(color) && IsColor(x) && IsColor(y)
    ensures IsColor(Mix(color, mask, x, y))
  {
  }

  datatype Menu = Menu(chord: Chord, sel: nat, color: bv16, crt: seq<bv16>, backup: seq<bv8>)

  predicate Shaped(m: Menu, menustr: seq<bv16>) {
    m.sel < 16 && |m.crt| == SCREEN && |m.backup| == MENU && |menustr| == MENU && IsColor(m.color)
  }

  /** handleInput. */
  function Handled(m: Menu, c: nat): (h: Menu)
    requires m.sel < 16 && |m.crt| == SCREEN && IsColor(m.color)
    ensures h.sel < 16 && |h.crt| == SCREEN && IsColor(h.color) && h.backup == m.backup
  {
    if c == 's' as int then m.(sel := (m.sel + 2) % 16)
    else if c == 'w' as int then m.(sel := (m.sel + 14) % 16)
    else if c == 'd' as int || c == 'a' as int then m.(sel := if m.sel % 2 == 1 then m.sel - 1 else m.sel + 1)
    else if c == 'e' as int || c == 'r' as int then
      var color := NewColor(m.color, m.sel, c == 'r' as int);
      ColorHasNoChar(m.color, m.sel, c == 'r' as int);
      m.(color := color, crt := Painted(m.crt, 0, SCREEN, color))
    else m
  }

  // ---- What the keys choose ----

  /** The low four bits of a colour from a given one up: red, green and blue as in row,
      and the bright one. */
  predicate Bits(color: bv16, b0: bv16, b1: bv16, b2: bv16, b3: bv16, row: nat, bright: bool) {
    && (color & b0 != 0 <==> row % 2 == 1)
    && (color & b1 != 0 <==> row / 2 % 2 == 1)
    && (color & b2 != 0 <==> row / 4 % 2 == 1)
    && (color & b3 != 0 <==> bright)
  }

  /** The foreground, and nothing else, has become that of a row. */
  predicate Foreground(color: bv16, color': bv16, row: nat, bright: bool) {
    color' & 0xf0ff == color & 0xf0ff && Bits(color', 0x0100, 0x0200, 0x0400, 0x0800, row, bright)
  }

  predicate Background(color: bv16, color': bv16, row: nat, bright: bool) {
    color' & 0x0fff == color & 0x0fff && Bits(color', 0x1000, 0x2000, 0x4000, 0x8000, row, bright)
  }

  /** Outside the mask a mixed colour has the new bits, inside it the old ones. */
  lemma MixKeeps(color: bv16, mask: bv16, x: bv16, y: bv16)
    requires (x + y) & mask == 0
    ensures Mix(color, mask, x, y) & mask == color & mask
  {
  }

  lemma MixTakes(color: bv16, mask: bv16, x: bv16, y: bv16, b: bv16)
    requires b & mask == 0
    ensures Mix(color, mask, x, y) & b == (x + y) & b
  {
  }

  lemma MixBits(color: bv16, mask: bv16, x: bv16, y: bv16, b0: bv16, b1: bv16, b2: bv16, b3: bv16, row: nat,
                bright: bool)
    requires b0 & mask == 0 && b1 & mask == 0 && b2 & mask == 0 && b3 & mask == 0
    requires Bits(x + y, b0, b1, b2, b3, row, bright)
    ensures Bits(Mix(color, mask, x, y), b0, b1, b2, b3, row, bright)
  {
    hide Mix;
    MixTakes(color, mask, x, y, b0);
    MixTakes(color, mask, x, y, b1);
    MixTakes(color, mask, x, y, b2);
    MixTakes(color, mask, x, y, b3);
  }

  lemma ForegroundBits(row: nat, bright: bool)
    requires row < 8
    ensures var x := Clrs(2 * row) + if bright then 0x0800 else 0;
            x & 0xf0ff == 0 && Bits(x, 0x0100, 0x0200, 0x0400, 0x0800, row, bright)
  {
    if row == 0 {} else if row == 1 {} else if row == 2 {} else if row == 3 {}
    else if row == 4 {} else if row == 5 {} else if row == 6 {} else { assert row == 7; }
  }

  lemma BackgroundBits(row: nat, bright: bool)
    requires row < 8
    ensures var x := Clrs(2 * row + 1) + if bright then 0x8000 else 0;
            x & 0x0fff == 0 && Bits(x, 0x1000, 0x2000, 0x4000, 0x8000, row, bright)
  {
    if row == 0 {} else if row == 1 {} else if row == 2 {} else if row == 3 {}
    else if row == 4 {} else if row == 5 {} else if row == 6 {} else { assert row == 7; }
  }

  /** An entry of the left column gives its row as the foreground colour, bright or
      not, and leaves the background alone. */
  lemma PickForeground(color: bv16, row: nat, bright: bool)
    requires row < 8
    ensures Foreground(color, NewColor(color, 2 * row, bright), row, bright)
  {
    hide Mix, Clrs, Bits;
    var x: bv16, y: bv16 := Clrs(2 * row), if bright then 0x0800 else 0;
    ForegroundBits(row, bright);
    MixKeeps(color, 0xf0ff, x, y);
    MixBits(color, 0xf0ff, x, y, 0x0100, 0x0200, 0x0400, 0x0800, row, bright);
  }

  /** One of the right column gives it as the background colour. */
  lemma PickBackground(color: bv16, row: nat, bright: bool)
    requires row < 8
    ensures Background(color, NewColor(color, 2 * row + 1, bright), row, bright)
  {
    hide Mix, Clrs, Bits;
    var x: bv16, y: bv16 := Clrs(2 * row + 1), if bright then 0x8000 else 0;
    BackgroundBits(row, bright);
    MixKeeps(color, 0x0fff, x, y);
    MixBits(color, 0x0fff, x, y, 0x1000, 0x2000, 0x4000, 0x8000, row, bright);
  }

  /** 'e' and 'r' choose the selected colour, 'r' the bright one, for every cell. */
  lemma KeysPick(m: Menu, c: nat)
    requires m.sel < 16 && |m.crt| == SCREEN && IsColor(m.color) && (c == 'e' as int || c == 'r' as int)
    ensures var h, row, bright := Handled(m, c), m.sel / 2, c == 'r' as int;
            && (if m.sel % 2 == 0 then Foreground(m.color, h.color, row, bright)
                else Background(m.color, h.color, row, bright))
            && forall p {:trigger h.crt[p]} :: 0 <= p < SCREEN ==> h.crt[p] == Tint(m.crt[p], h.color)
  {
    hide NewColor, Foreground, Background, IsColor, Tint;
    PickForeground(m.color, m.sel / 2, c == 'r' as int);
    PickBackground(m.color, m.sel / 2, c == 'r' as int);
  }

  /** The keys of the menu one after the other. */
  function Steered(m: Menu, codes: seq<nat>): (h: Menu)
    requires m.sel < 16 && |m.crt| == SCREEN && IsColor(m.color)
    ensures h.sel < 16 && |h.crt| == SCREEN && IsColor(h.color)
  {
    if codes == [] then m else Handled(Steered(m, codes[..|codes| - 1]), codes[|codes| - 1])
  }

  /** How often a key was pressed. */
  function Presses(codes: seq<nat>, c: char): nat {
    if codes == [] then 0
    else Presses(codes[..|codes| - 1], c) + if codes[|codes| - 1] == c as int then 1 else 0
  }

  /** Over every sequence of keys the selection is eight rows of two: 's' and 'w' go
      down and up a row, around at the ends, 'a' and 'd' to the other column, and no
      other key moves it. */
  lemma {:induction false} SelectionIs(m: Menu, codes: seq<nat>)
    requires m.sel < 16 && |m.crt| == SCREEN && IsColor(m.color)
    ensures var sel := Steered(m, codes).sel;
            && sel / 2 == (m.sel / 2 + Presses(codes, 's') - Presses(codes, 'w')) % 8
            && sel % 2 == (m.sel % 2 + Presses(codes, 'a') + Presses(codes, 'd')) % 2
  {
    hide IsColor, NewColor, Painted, Handled;
    if codes != [] {
      var n := |codes| - 1;
      var h := Steered(m, codes[..n]);
      SelectionIs(m, codes[..n]);
      MovesSelection(h, codes[n]);
      var row := m.sel / 2 + Presses(codes[..n], 's') - Presses(codes[..n], 'w');
      Around8(row);
      Around2(m.sel % 2 + Presses(codes[..n], 'a') + Presses(codes[..n], 'd'));
    }
  }

  lemma MovesSelection(m: Menu, c: nat)
    requires m.sel < 16 && |m.crt| == SCREEN && IsColor(m.color)
    ensures var sel := Handled(m, c).sel;
            && sel / 2 == (if c == 's' as int then (m.sel / 2 + 1) % 8
                           else if c == 'w' as int then (m.sel / 2 - 1) % 8 else m.sel / 2)
            && sel % 2 == if c == 'a' as int || c == 'd' as int then (m.sel % 2 + 1) % 2 else m.sel % 2
  {
    hide IsColor, NewColor, Painted;
    RowMoves(m.sel / 2, m.sel % 2);
  }

  lemma RowMoves(row: nat, column: nat)
    requires row < 8 && column < 2
    ensures (2 * row + column + 2) % 16 == 2 * ((row + 1) % 8) + column
    ensures (2 * row + column + 14) % 16 == 2 * ((row - 1) % 8) + column
  {
  }

  lemma Modulo8(q: int, r: int)
    ensures (8 * q + r) % 8 == r % 8
  {
  }

  lemma Around8(x: int)
    ensures (x % 8 + 1) % 8 == (x + 1) % 8 && (x % 8 - 1) % 8 == (x - 1) % 8
  {
    var q, r := x / 8, x % 8;
    assert x == 8 * q + r;
    Modulo8(q, r + 1);
    Modulo8(q, r - 1);
  }

  lemma Around2(x: int)
    ensures (x % 2 + 1) % 2 == (x + 1) % 2
  {
  }

  /** The entries of the menu do not overlap. */
  lemma EntriesApart(x: nat, y: nat, p: nat)
    requires x < 16 && y < 16 && LowerBound(x) <= p < LowerBound(x) + 10 && LowerBound(y) <= p < LowerBound(y) + 10
    ensures x == y
  {
  }

  /** Keys that print nothing while the menu is open: not Control-P, which lists the
      processes, nor Control-U, unless there is nothing on the line to erase. */
  predicate Silent(k: Key) {
    k.code != CTRL_P && (k.code == CTRL_U ==> k.blank)
  }

  /** A silent key with the menu open. */
  function MenuKey(m: Menu, k: Key, menustr: seq<bv16>): (r: Menu)
    requires Shaped(m, menustr) && m.chord.menu && Silent(k)
    ensures Shaped(r, menustr) && r.backup == m.backup
  {
    var chord := Pressed(m.chord, k);
    if !chord.menu then m.(chord := chord, crt := Loaded(m.crt, m.backup, m.color))
    else if Special(k.code) then m.(chord := chord)
    else
      var h := Handled(m, k.code);
      var lo := LowerBound(h.sel);
      h.(chord := chord, crt := Painted(Shown(h.crt, menustr), lo, lo + 10, 0xf000))
  }

  /** Opened over the screen crt0: its characters are in the backup, or still there. */
  ghost predicate Covers(m: Menu, crt0: seq<bv16>, menustr: seq<bv16>) {
    && Shaped(m, menustr) && |crt0| == SCREEN && m.backup == Saved(crt0)
    && forall p {:trigger m.crt[p]} :: 0 <= p < SCREEN && !InMenu(p) ==> Char(m.crt[p]) == Char(crt0[p])
  }

  /** Every character is what it was. */
  ghost predicate Restored(m: Menu, crt0: seq<bv16>) {
    && |m.crt| == |crt0| == SCREEN
    && forall p {:trigger m.crt[p]} :: 0 <= p < SCREEN ==> Char(m.crt[p]) == Char(crt0[p])
  }

  lemma HandledCovers(m: Menu, c: nat, crt0: seq<bv16>, menustr: seq<bv16>)
    requires Covers(m, crt0, menustr)
    ensures Covers(Handled(m, c), crt0, menustr)
  {
    hide Painted, Saved, NewColor, Char, InMenu, Tint, IsColor;
    if c == 'e' as int || c == 'r' as int {
      var bright := c == 'r' as int;
      ColorHasNoChar(m.color, m.sel, bright);
      forall p | 0 <= p < SCREEN ensures Char(Handled(m, c).crt[p]) == Char(m.crt[p]) {
        Recoloured(m.crt[p], NewColor(m.color, m.sel, bright));
      }
    }
  }

  lemma LoadRestores(m: Menu, crt0: seq<bv16>, menustr: seq<bv16>)
    requires Covers(m, crt0, menustr)
    ensures Restored(m.(crt := Loaded(m.crt, m.backup, m.color)), crt0)
  {
    hide Loaded, Saved, Char, Merge, Low, InMenu, Index, Pos, IsColor;
    var crt := Loaded(m.crt, m.backup, m.color);
    forall p | 0 <= p < SCREEN ensures Char(crt[p]) == Char(crt0[p]) {
      if InMenu(p) {
        PosOfIndex(p);
        CharBack(crt0[p], m.color);
      }
    }
  }

  lemma KeyCovers(m: Menu, k: Key, crt0: seq<bv16>, menustr: seq<bv16>)
    requires Covers(m, crt0, menustr) && m.chord.menu && Silent(k)
    ensures var m' := MenuKey(m, k, menustr);
            if m'.chord.menu then Covers(m', crt0, menustr) else Restored(m', crt0)
  {
    hide Painted, Shown, Saved, Loaded, Char, InMenu, Handled, LowerBound, Index, Tint, Merge, IsColor;
    LoadRestores(m, crt0, menustr);
    HandledCovers(m, k.code, crt0, menustr);
    var h := Handled(m, k.code);
    forall p | LowerBound(h.sel) <= p < LowerBound(h.sel) + 10 ensures InMenu(p) {
      EntryInMenu(h.sel, p);
    }
  }

  predicate AllSilent(keys: seq<Key>) {
    forall i :: 0 <= i < |keys| ==> Silent(keys[i])
  }

  /** Keys until the menu closes, and no further. */
  function Played(m: Menu, keys: seq<Key>, menustr: seq<bv16>): Menu
    requires Shaped(m, menustr) && AllSilent(keys)
    decreases |keys|
  {
    if keys == [] || !m.chord.menu then m else Played(MenuKey(m, keys[0], menustr), keys[1..], menustr)
  }

  /** The cells under the menu, once it has closed. */
  ghost predicate Reloaded(m: Menu, crt0: seq<bv16>)
    requires |m.crt| == |crt0| == SCREEN
  {
    forall p {:trigger m.crt[p]} :: 0 <= p < SCREEN && InMenu(p) ==> m.crt[p] == Merge(Low(crt0[p]), m.color)
  }

  lemma KeyReloads(m: Menu, k: Key, crt0: seq<bv16>, menustr: seq<bv16>)
    requires Covers(m, crt0, menustr) && m.chord.menu && Silent(k) && !MenuKey(m, k, menustr).chord.menu
    ensures Reloaded(MenuKey(m, k, menustr), crt0)
  {
    hide Saved, Loaded, Merge, Low, InMenu, Index, Pos;
    forall p | 0 <= p < SCREEN && InMenu(p) ensures m.backup[Index(p)] == Low(crt0[p]) {
      PosOfIndex(p);
    }
  }

  lemma {:induction false} PlayedRestores(m: Menu, keys: seq<Key>, crt0: seq<bv16>, menustr: seq<bv16>)
    requires Covers(m, crt0, menustr) && AllSilent(keys) && m.chord.menu
    ensures var r := Played(m, keys, menustr);
            if r.chord.menu then Covers(r, crt0, menustr)
            else Restored(r, crt0) && Reloaded(r, crt0) && IsColor(r.color)
    decreases |keys|
  {
    hide Covers, Restored, Reloaded, MenuKey, IsColor;
    if keys != [] {
      CoversShaped(m, crt0, menustr);
      KeyCovers(m, keys[0], crt0, menustr);
      var m' := MenuKey(m, keys[0], menustr);
      if m'.chord.menu {
        PlayedRestores(m', keys[1..], crt0, menustr);
      } else {
        KeyReloads(m, keys[0], crt0, menustr);
        PlayedClosed(m', keys[1..], menustr);
      }
    }
  }

  lemma CoversShaped(m: Menu, crt0: seq<bv16>, menustr: seq<bv16>)
    requires Covers(m, crt0, menustr)
    ensures Shaped(m, menustr)
  {
  }

  lemma PlayedClosed(m: Menu, keys: seq<Key>, menustr: seq<bv16>)
    requires Shaped(m, menustr) && AllSilent(keys) && !m.chord.menu
    ensures Played(m, keys, menustr) == m
  {
  }

  /** The menu opened: the screen beneath it is saved. */
  function Opened(m: Menu): Menu
    requires |m.crt| == SCREEN
  {
    m.(chord := Chord(false, false, true), backup := Saved(m.crt))
  }

  /** Opening the menu, any silent keys, and closing it: every character on the screen
      is what it was, and a cell under the menu is that character in the current
      colour exactly if it is a 7-bit one, or the colour is 0xff. */
  lemma SessionRestores(m: Menu, keys: seq<Key>, menustr: seq<bv16>, p: nat)
    requires Shaped(m, menustr) && AllSilent(keys) && !Played(Opened(m), keys, menustr).chord.menu && p < SCREEN
    ensures var r := Played(Opened(m), keys, menustr);
            && Restored(r, m.crt)
            && (InMenu(p) ==> (r.crt[p] == Tint(m.crt[p], r.color) <==> Char(m.crt[p]) < 0x80 || r.color == 0xff00))
  {
    hide Played, Char, Merge, Tint, IsColor, Low, InMenu, Saved;
    PlayedRestores(Opened(m), keys, m.crt, menustr);
    CharBack(m.crt[p], Played(Opened(m), keys, menustr).color);
  }

  // ---- The code ----

  lemma NextPos(i: nat)
    requires i < MENU
    ensures i % 23 == 0 ==> Pos(i) == 57 + 80 * (i / 23)
    ensures (i + 1) % 23 != 0 && i + 1 < MENU ==> Pos(i + 1) == Pos(i) + 1
  {
    var q, r := i / 23, i % 23;
    assert i == q * 23 + r;
    if r + 1 < 23 {
      RowAndColumn(q, r + 1);
    } else {
      RowAndColumn(q + 1, 0);
    }
  }

  /** Only cell Pos(i) of the screen is cell i of the menu. */
  lemma OnePos(i: nat)
    requires i < MENU
    ensures forall p {:trigger InMenu(p)} :: 0 <= p < SCREEN && InMenu(p) && Index(p) == i ==> p == Pos(i)
  {
    forall p | 0 <= p < SCREEN && InMenu(p) && Index(p) == i ensures p == Pos(i) {
      PosOfIndex(p);
    }
  }

  lemma EntryBounds(x: nat)
    requires x < 16
    ensures LowerBound(x) + 10 <= SCREEN
  {
  }

  class Screen {
    const crt: array<bv16>
    const backup: array<bv8>
    var chord: Chord
    var sel: nat
    var color: bv16

    ghost predicate Valid()
      reads this
    {
      crt.Length == SCREEN && backup.Length == MENU && sel < 16 && IsColor(color)
    }

    function View(): Menu
      reads this, crt, backup
    {
      Menu(chord, sel, color, crt[..], backup[..])
    }

    constructor (crt: array<bv16>, backup: array<bv8>)
      requires crt.Length == SCREEN && backup.Length == MENU
      ensures Valid() && this.crt == crt && this.backup == backup && chord == Start && sel == 0 && color == 0x0700
    {
      this.crt, this.backup := crt, backup;
      chord, sel, color := Start, 0, 0x0700;
    }

    method SaveBackground()
      requires Valid()
      modifies backup
      ensures backup[..] == Saved(crt[..])
    {
      hide Saved, Low, Index, InMenu, IsColor;
      var pos := 57;
      for i := 0 to MENU
        invariant i % 23 != 0 ==> pos == Pos(i)
        invariant forall j {:trigger backup[j]} :: 0 <= j < i ==> backup[j] == Low(crt[Pos(j)])
      {
        if i % 23 == 0 { pos := 57 + 80 * (i / 23); }
        backup[i] := Low(crt[pos]);
        NextPos(i);
        pos := pos + 1;
      }
    }

    method LoadBackground()
      requires Valid()
      modifies crt
      ensures crt[..] == Loaded(old(crt[..]), backup[..], color)
    {
      hide Loaded, Merge, Index, InMenu, IsColor;
      var pos := 57;
      for i := 0 to MENU
        invariant i % 23 != 0 ==> pos == Pos(i)
        invariant forall p {:trigger crt[p]} :: 0 <= p < SCREEN ==>
                    crt[p] == if InMenu(p) && Index(p) < i then Merge(backup[Index(p)], color) else old(crt[p])
      {
        if i % 23 == 0 { pos := 57 + 80 * (i / 23); }
        NextPos(i);
        OnePos(i);
        crt[pos] := Merge(backup[i], color);
        pos := pos + 1;
      }
    }

    method ShowMenu(menustr: seq<bv16>)
      requires Valid() && |menustr| == MENU
      modifies crt
      ensures crt[..] == Shown(old(crt[..]), menustr)
    {
      hide Shown, Index, InMenu, IsColor, Tint;
      var pos := 57;
      for i := 0 to MENU
        invariant i % 23 != 0 ==> pos == Pos(i)
        invariant forall p {:trigger crt[p]} :: 0 <= p < SCREEN ==>
                    crt[p] == if InMenu(p) && Index(p) < i then Tint(menustr[Index(p)], 0x0f00) else old(crt[p])
      {
        if i % 23 == 0 { pos := 57 + 80 * (i / 23); }
        NextPos(i);
        OnePos(i);
        crt[pos] := Tint(menustr[i], 0x0f00);
        pos := pos + 1;
      }
    }

    /** repaint and displaySelection: a stretch of cells given a colour. */
    method Paint(from: nat, to: nat, paint: bv16)
      requires Valid() && from <= to <= SCREEN
      modifies crt
      ensures crt[..] == Painted(old(crt[..]), from, to, paint)
    {
      hide Painted, Tint, IsColor;
      for i := from to to
        invariant forall p {:trigger crt[p]} :: 0 <= p < SCREEN ==>
                    crt[p] == if from <= p < i then Tint(old(crt[p]), paint) else old(crt[p])
      {
        crt[i] := Tint(crt[i], paint);
      }
    }

    method HandleInput(c: nat)
      requires Valid()
      modifies this`sel, this`color, crt
      ensures Valid() && View() == Handled(old(View()), c)
    {
      hide Painted, NewColor, IsColor, Tint;
      if c == 's' as int {
        sel := (sel + 2) % 16;
      } else if c == 'w' as int {
        sel := (sel + 14) % 16;
      } else if c == 'd' as int || c == 'a' as int {
        sel := if sel % 2 == 1 then sel - 1 else sel + 1;
      } else if c == 'e' as int || c == 'r' as int {
        ColorHasNoChar(color, sel, c == 'r' as int);
        color := NewColor(color, sel, c == 'r' as int);
        Paint(0, SCREEN, color);
      }
    }

    /** consoleintr on a silent key, with the menu open. */
    method KeyPressed(k: Key, menustr: seq<bv16>)
      requires Valid() && |menustr| == MENU && chord.menu && Silent(k)
      modifies this, crt
      ensures Valid() && View() == MenuKey(old(View()), k, menustr)
    {
      hide Painted, Shown, Loaded, Handled, LowerBound, InMenu, IsColor, Tint, Merge;
      var next := Pressed(chord, k);
      if !next.menu {
        LoadBackground();
      } else if !Special(k.code) {
        HandleInput(k.code);
        ShowMenu(menustr);
        EntryBounds(sel);
        Paint(LowerBound(sel), LowerBound(sel) + 10, 0xf000);
      }
      chord := next;
    }

    /** consoleintr on the key that completes the chord, with the menu closed. */
    method Open()
      requires Valid() && !chord.menu && chord.flagC && chord.flagO
      modifies this`chord, backup
      ensures Valid() && View() == Opened(old(View())) && chord == Pressed(old(chord), Key(ALT_L, true, true))
    {
      hide Saved;
      SaveBackground();
      chord := Chord(false, false, true);
    }
  }
}
