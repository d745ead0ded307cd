/** The emulator's tape: a buffer of stored cells together with the logical
    position of the buffer's first cell. Every logical cell outside the
    buffer is blank, so the tape is unbounded in both directions. */
module TuringTape {

  /** The blank symbol: what a cell that was never written holds. */
  const Blank: char := '_'

  /** A stored space is read and written as a blank. */
  function Normalize(c: char): (r: char)
    ensures r != ' '
    ensures c != ' ' ==> r == c
    ensures c == ' ' ==> r == Blank
  {
    if c == ' ' then Blank else c
  }

  /** The string of `n` copies of `c`; a count of zero or less gives "". */
  function Repeated(c: char, n: int): (s: string)
    ensures |s| == if n > 0 then n else 0
    ensures forall i :: 0 <= i < |s| ==> s[i] == c
  {
    if n <= 0 then [] else Repeated(c, n - 1) + [c]
  }

  /** Builds the padding string with the source's decrementing loop. */
  method Repeat(c: char, n: int) returns (s: string)
    ensures s == Repeated(c, n)
  {
    s := "";
    var k := n;
    while k > 0
      invariant if n > 0 then 0 <= k <= n && s == Repeated(c, n - k) else k == n && s == []
    {
      s := s + [c];
      k := k - 1;
    }
  }

  /** The symbol at buffer index `n`: blank outside the buffer, and a
      stored space also reads as a blank. */
  function GetTapeSymbol(cells: seq<char>, n: int): (c: char)
    ensures c != ' '
    ensures !(0 <= n < |cells|) ==> c == Blank
    ensures 0 <= n < |cells| && cells[n] != ' ' ==> c == cells[n]
    ensures 0 <= n < |cells| && cells[n] == ' ' ==> c == Blank
  {
    if n >= |cells| || n < 0 then Blank else Normalize(cells[n])
  }

  /** A tape: the stored buffer and the logical position of its index 0. */
  datatype Tape = Tape(cells: seq<char>, offset: int) {

    /** The symbol at logical position `p`. */
    function Cell(p: int): (c: char)
      ensures c != ' '
      ensures !(offset <= p < offset + |cells|) ==> c == Blank
    {
      GetTapeSymbol(cells, p - offset)
    }

    /** The tape after writing `c` at logical position `pos`: an in-place
        overwrite inside the buffer; outside it, a non-blank symbol grows
        the buffer (padded with blanks) and a blank changes nothing. */
    function Write(pos: int, c: char): (t: Tape)
      ensures |t.cells| >= |cells|
    {
      var n := pos - offset;
      var sym := Normalize(c);
      if 0 <= n < |cells| then
        Tape(cells[..n] + [sym] + cells[n + 1..], offset)
      else if n < 0 && sym != Blank then
        Tape([sym] + Repeated(Blank, -1 - n) + cells, offset + n)
      else if sym != Blank then
        Tape(cells + Repeated(Blank, n - |cells|) + [sym], offset)
      else
        this
    }
  }

  /** Reading the cell just written gives the symbol written, a space being
      read as a blank. */
  lemma ReadAfterWrite(t: Tape, pos: int, c: char)
    ensures t.Write(pos, c).Cell(pos) == Normalize(c)
  {
  }

  /** Writing one cell leaves every other logical cell as it was. */
  lemma WriteFrame(t: Tape, pos: int, c: char, q: int)
    requires q != pos
    ensures t.Write(pos, c).Cell(q) == t.Cell(q)
  {
  }

  /** How the buffer changes: in place inside it; a blank outside it changes
      nothing; a non-blank symbol left of it becomes the new first cell in
      front of the padded old buffer, and right of it the new last cell
      after the old buffer and its padding. */
  lemma WriteBuffer(t: Tape, pos: int, c: char)
    ensures var n := pos - t.offset;
            0 <= n < |t.cells| ==>
              var w := t.Write(pos, c);
              && w.offset == t.offset && |w.cells| == |t.cells| && w.cells[n] == Normalize(c)
              && forall i :: 0 <= i < |t.cells| && i != n ==> w.cells[i] == t.cells[i]
    ensures var n := pos - t.offset;
            !(0 <= n < |t.cells|) && Normalize(c) == Blank ==> t.Write(pos, c) == t
    ensures var n := pos - t.offset;
            n < 0 && Normalize(c) != Blank ==>
              var w := t.Write(pos, c);
              && w.offset == t.offset + n && |w.cells| == |t.cells| - n
              && w.cells[0] == Normalize(c) && w.cells[-n..] == t.cells
              && forall i :: 0 < i < -n ==> w.cells[i] == Blank
    ensures var n := pos - t.offset;
            n >= |t.cells| && Normalize(c) != Blank ==>
              var w := t.Write(pos, c);
              && w.offset == t.offset && |w.cells| == n + 1
              && w.cells[..|t.cells|] == t.cells && w.cells[n] == Normalize(c)
              && forall i :: |t.cells| <= i < n ==> w.cells[i] == Blank
  {
  }
}
