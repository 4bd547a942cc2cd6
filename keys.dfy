/** Key codes as the input handlers receive them from curses' getch(). Printable
    keys arrive as their character codes; the special keys carry the values
    that the ncurses headers assign to them. */
module Keys {
  const ESC: int := 27
  const SPACE: int := 32
  const NEWLINE: int := 10
  const DEL: int := 127
  const KEY_DOWN: int := 258
  const KEY_UP: int := 259
  const KEY_BACKSPACE: int := 263
  const KEY_ENTER: int := 343

  /** The code of a printable key. */
  function Code(c: char): int { c as int }

  /** `ch` is the letter `c` typed in upper or lower case (`case 'E': case 'e':`). */
  predicate IsLetter(ch: int, upper: char, lower: char) {
    ch == Code(upper) || ch == Code(lower)
  }
}
