/** Key codes as curses' getch() reports them (the ncurses values). Menus and
    lists compare the raw integer, so keys are plain ints here too. */
module Keys {
  type Key = int

  const Esc: Key := 27
  const Enter: Key := 10
  const Delete: Key := 127
  const KeyDown: Key := 258
  const KeyUp: Key := 259
  const KeyLeft: Key := 260
  const KeyRight: Key := 261
  const KeyHome: Key := 262
  const KeyBackspace: Key := 263
  const KeyNPage: Key := 338
  const KeyPPage: Key := 339
  const KeyEnd: Key := 360
  const KeyResize: Key := 410

  /** curses.KEY_F(n) */
  function F(n: nat): Key { 264 + n }
}
