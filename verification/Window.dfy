/** The viewport of app/window.c over a list whose rows can all be selected: `top` is the
    first row shown and `sel` the cursor.

    An iterator is a row number, or the number of rows for the list head; get_next and
    get_prev wrap around through the head as the list iterators of app/iter.h do. The
    counting loops of the source appear as `Distance`, `Above`, `Below` and `MoveTop`,
    and each operation states where the cursor and the top row are afterwards, not only
    that the cursor can be seen. */
module Window {
  function Min(a: int, b: int): int {
    if a < b then a else b
  }

  function Max(a: int, b: int): int {
    if a > b then a else b
  }

  class Window {
    /** The number of rows in the list; an iterator is a row number, or `rows` for the list head. */
    var rows: nat
    var top: nat
    var sel: nat
    var nrRows: nat
    /** The scroll_offset option. */
    const scrollOffset: nat

    /** The cursor is on a row that is shown. */
    ghost predicate Valid()
      reads this
    {
      top <= sel < rows && sel < top + nrRows
    }

    /** window_set_contents. */
    constructor (rows: nat, nrRows: nat, scrollOffset: nat)
      requires rows > 0 && nrRows > 0
      ensures Valid() && sel == 0 && this.rows == rows && this.nrRows == nrRows && this.scrollOffset == scrollOffset
    {
      this.rows, this.nrRows, this.scrollOffset, top, sel := rows, nrRows, scrollOffset, 0, 0;
    }

    /** get_next goes from the last row to the head and from there to the first row. */
    method Next(p: nat) returns (q: nat, ok: bool)
      requires p <= rows
      ensures q == (if p == rows then 0 else p + 1) && ok == (q < rows)
    {
      q := if p == rows then 0 else p + 1;
      ok := q < rows;
    }

    /** get_prev is its inverse. */
    method Prev(p: nat) returns (q: nat, ok: bool)
      requires p <= rows
      ensures q == (if p == 0 then rows else p - 1) && ok == (q < rows)
    {
      q := if p == 0 then rows else p - 1;
      ok := q < rows;
    }

    /** Follows get_next from one row to another. */
    method Distance(from: nat, to: nat) returns (d: nat)
      requires from <= to < rows
      ensures d == to - from
    {
      var p, ok := from, true;
      d := 0;
      while p != to
        invariant p == from + d <= to
      {
        p, ok := Next(p);
        d := d + 1;
      }
    }

    /** Goes up to `n` rows up, but not to the head. */
    method Above(from: nat, n: int) returns (p: nat, d: nat)
      requires from < rows
      ensures d == Max(0, Min(n, from)) && p == from - d
    {
      var q, ok := from, true;
      p, d := from, 0;
      while d < n
        invariant 0 <= d <= Max(0, n) && d <= from && p == from - d
      {
        q, ok := Prev(p);
        if !ok {
          break;
        }
        p, d := q, d + 1;
      }
    }

    method Below(from: nat, n: int) returns (p: nat, d: nat)
      requires from < rows
      ensures d == Max(0, Min(n, rows - 1 - from)) && p == from + d
    {
      var q, ok := from, true;
      p, d := from, 0;
      while d < n
        invariant 0 <= d <= Max(0, n) && p == from + d < rows
      {
        q, ok := Next(p);
        if !ok {
          break;
        }
        p, d := q, d + 1;
      }
    }

    /** Moves the top row without looking where it gets. */
    method MoveTop(n: int)
      requires top < rows && 0 <= top + n < rows
      modifies this`top
      ensures top == old(top) + n
    {
      var k, ok := n, true;
      while k != 0
        invariant 0 <= top < rows && top + k == old(top) + n
        decreases if k < 0 then -k else k
      {
        if k > 0 {
          top, ok := Next(top);
          k := k - 1;
        } else {
          top, ok := Prev(top);
          k := k + 1;
        }
      }
    }

    /** window_up. If the rows that scroll_offset asks for above the new cursor are shown already, the
        window stays; otherwise it goes up until exactly these rows are shown, or all there are. */
    method Up(n: nat)
      requires Valid()
      modifies this`top, this`sel
      ensures Valid() && sel == Max(0, old(sel) - n)
      ensures n > 0 ==> var above := Min(Min(scrollOffset, nrRows / 2), sel); top == if sel - old(top) >= above then old(top) else sel - above
      ensures n == 0 ==> top == old(top)
    {
      var upper := Min(scrollOffset, nrRows / 2);
      var buffer := Distance(top, sel);
      var selUp, offset, p;
      sel, selUp := Above(sel, n);
      if selUp == 0 {
        upper := Min(buffer + n, nrRows / 2);
      }
      p, offset := Above(sel, upper);
      var topUp := offset + selUp - buffer;
      if topUp > 0 {
        MoveTop(-topUp);
      }
    }

    /** window_down. The same for the rows below the cursor. */
    method Down(n: nat)
      requires Valid()
      modifies this`top, this`sel
      ensures Valid() && sel == Min(rows - 1, old(sel) + n)
      ensures n > 0 ==> var below := Min(Min(scrollOffset, (nrRows - 1) / 2), rows - 1 - sel);
                        top == if sel + below < old(top) + nrRows then old(top) else sel + below - nrRows + 1
      ensures n == 0 ==> top == old(top)
    {
      var upper := Min(scrollOffset, (nrRows - 1) / 2);
      var d := Distance(top, sel);
      var buffer := nrRows - 1 - d;
      var selDown, offset, p;
      sel, selDown := Below(sel, n);
      if selDown == 0 {
        upper := Min(buffer + n, (nrRows - 1) / 2);
      }
      p, offset := Below(sel, upper);
      var topDown := offset + selDown - buffer;
      if topDown > 0 {
        MoveTop(topDown);
      }
    }

    /** window_changed: moves the window no further than it takes to show the cursor, and then up
        until there is no empty line below the last row or the first row is shown. */
    method Changed()
      requires rows > 0 && top <= rows && sel < rows && nrRows > 0
      modifies this`top, this`sel
      ensures Valid() && (old(top) == rows ==> sel == top == 0)
      ensures old(top) < rows ==> sel == old(sel) && top == Max(0, Min(rows - nrRows, Max(Min(old(top), sel), sel - nrRows + 1)))
    {
      var ok;
      if top == rows {
        top, ok := Next(top);
        sel := top;
        return;
      }
      var p, delta := top, 0;
      while p != sel
        invariant p == top + delta < rows && top == old(top) && sel == old(sel) && (sel >= top ==> p <= sel)
        decreases rows - p
      {
        p, ok := Next(p);
        if !ok {
          break;
        }
        delta := delta + 1;
      }
      if p != sel {
        MoveTop(sel - top);
      } else if delta > nrRows - 1 {
        MoveTop(delta - (nrRows - 1));
      }
      var shown, more;
      p, shown := Below(top, nrRows - 1);
      p, more := Above(top, nrRows - 1 - shown);
      top := p;
    }

    /** window_set_nr_rows. */
    method SetNrRows(n: int)
      requires Valid()
      modifies this`nrRows, this`top, this`sel
      ensures Valid() && sel == old(sel) && nrRows == if n < 1 then old(nrRows) else n
      ensures top == if n < 1 then old(top) else Max(0, Min(rows - n, Max(old(top), sel - n + 1)))
    {
      if n < 1 {
        return;
      }
      nrRows := n;
      Changed();
    }

    /** window_set_sel. */
    method SetSel(row: nat)
      requires Valid() && row < rows
      modifies this`top, this`sel
      ensures Valid() && sel == row
      ensures row != old(sel) ==>
                var above, below := Min(nrRows / 2, scrollOffset), Min((nrRows - 1) / 2, scrollOffset);
                if row < old(top) + above then top == Max(0, row - above)
                else top == Max(old(top), Min(row + below, rows - 1) - nrRows + 1)
      ensures row == old(sel) ==> top == old(top)
    {
      if sel == row {
        return;
      }
      sel := row;
      var topNr := Distance(0, top);
      var selNr := Distance(0, sel);
      var upper := Min(nrRows / 2, scrollOffset);
      if selNr < topNr + upper {
        if selNr < upper {
          top := 0;
        } else {
          top := sel;
          MoveTop(-upper);
        }
      } else {
        ScrollTo(topNr, selNr, Min((nrRows - 1) / 2, scrollOffset));
      }
    }

    /** The second half of window_set_sel: the new cursor may be below the rows shown. */
    method ScrollTo(topNr: nat, selNr: nat, upper: nat)
      requires upper < nrRows && topNr == top <= sel == selNr < rows
      modifies this`top
      ensures Valid() && top == Max(old(top), Min(sel + upper, rows - 1) - nrRows + 1)
    {
      var bottom, p, d, last, ok := selNr, sel, 0, sel, true;
      if selNr >= topNr + nrRows {
        MoveTop(selNr - nrRows + 1 - topNr);
      } else {
        p, d := Below(sel, topNr + nrRows - 1 - selNr);
        bottom := selNr + d;
        if bottom + 1 < topNr + nrRows {
          bottom := selNr + upper;
        }
      }
      while bottom < selNr + upper
        invariant p < rows && old(top) <= top <= sel < top + nrRows
        invariant bottom < selNr + upper ==> p == bottom && top + nrRows - 1 == bottom
        invariant bottom >= selNr + upper ==> top == Max(old(top), Min(sel + upper, rows - 1) - nrRows + 1)
        decreases selNr + upper - bottom
      {
        last, ok := Next(p);
        if !ok {
          break;
        }
        p, bottom := last, bottom + 1;
        top, ok := Next(top);
      }
    }

    /** window_goto_top. */
    method GotoTop()
      requires rows > 0 && nrRows > 0
      modifies this`top, this`sel
      ensures Valid() && sel == 0 && top == 0
    {
      var ok;
      sel, ok := Next(rows);
      top := sel;
    }

    /** window_goto_bottom. */
    method GotoBottom()
      requires rows > 0 && nrRows > 0
      modifies this`top, this`sel
      ensures Valid() && sel == rows - 1 && top == Max(0, rows - nrRows)
    {
      var ok, d;
      sel, ok := Prev(rows);
      top, d := Above(sel, nrRows - 1);
    }

    /** window_page_up and window_half_page_up. */
    method PageUp(half: bool)
      requires Valid()
      modifies this`top, this`sel
      ensures Valid() && var n := Min(if half then (nrRows - 1) / 2 else nrRows - 1, old(top)); sel == old(sel) - n && top == old(top) - n
    {
      var n := if half then (nrRows - 1) / 2 else nrRows - 1;
      var s, t, ok := sel, top, true;
      for up := 0 to n
        invariant s == sel == old(sel) - up && t == top == old(top) - up && sel < rows
      {
        s, ok := Prev(s);
        if !ok {
          break;
        }
        t, ok := Prev(t);
        if !ok {
          break;
        }
        sel, top := s, t;
      }
    }

    /** window_page_down and window_half_page_down. */
    method PageDown(half: bool)
      requires Valid()
      modifies this`top, this`sel
      ensures Valid()
      ensures var n := Min(if half then (nrRows - 1) / 2 else nrRows - 1, Max(0, rows - (old(top) + nrRows)));
              sel == old(sel) + n && top == old(top) + n
    {
      var n := if half then (nrRows - 1) / 2 else nrRows - 1;
      var bot, d := Below(top, nrRows - 1);
      var s, t, ok := sel, top, true;
      ghost var bot0 := bot;
      for down := 0 to n
        invariant s == sel == old(sel) + down && t == top == old(top) + down && bot == bot0 + down < rows && sel <= bot
      {
        s, ok := Next(s);
        if !ok {
          break;
        }
        bot, ok := Next(bot);
        if !ok {
          break;
        }
        t, ok := Next(t);
        sel, top := s, t;
      }
    }

    /** window_scroll_down. */
    method ScrollDown()
      requires Valid()
      modifies this`top, this`sel
      ensures Valid()
      ensures if old(top) + nrRows < rows then top == old(top) + 1 && sel == Max(old(sel), top) else top == old(top) && sel == old(sel)
    {
      var bot, d := Below(top, nrRows - 1);
      var t, ok;
      bot, ok := Next(bot);
      if !ok {
        return;
      }
      t, ok := Next(top);
      if !ok {
        return;
      }
      if top == sel {
        sel, ok := Next(sel);
      }
      top := t;
    }

    /** window_scroll_up. */
    method ScrollUp()
      requires Valid()
      modifies this`top, this`sel
      ensures Valid()
      ensures if old(top) > 0 then top == old(top) - 1 && sel == old(sel) - (if old(sel) == Min(old(top) + nrRows, rows) - 1 then 1 else 0)
              else top == 0 && sel == old(sel)
    {
      var t, ok := Prev(top);
      if !ok {
        return;
      }
      var bot, d := Below(top, nrRows - 1);
      if bot == sel {
        sel, ok := Prev(sel);
      }
      top := t;
    }
  }
}
