/** Log lines and the in-place progress line on one terminal: src/log.c. */
module Terminal {
  import opened Text

  const LEVEL_NONE: int := 0
  const LEVEL_ERROR: int := 1
  const LEVEL_WARN: int := 2
  const LEVEL_INFO: int := 3
  const LEVEL_DEBUG: int := 4
  const MESSAGE_MAX: nat := 1023

  function LevelName(level: int): string {
    if level == LEVEL_ERROR then "ERROR"
    else if level == LEVEL_WARN then "WARN"
    else if level == LEVEL_INFO then "INFO"
    else if level == LEVEL_DEBUG then "DEBUG"
    else "LOG"
  }

  function Labelled(tag: string, message: string): string {
    "[" + tag + "] " + message
  }

  /** No control characters: what is printed takes one cell per character. */
  predicate Plain(s: string) {
    forall i :: 0 <= i < |s| ==> s[i] >= ' '
  }

  // ---------- What a reader should see ----------

  /** The finished lines, top to bottom, and the progress line in the making, if any. */
  datatype Screen = Screen(lines: seq<string>, live: string)

  datatype Op =
    | Update(message: string)
    | Finish(message: string)
    | Clear
    | Write(level: int, message: string)

  function TextOf(op: Op): string {
    match op
    case Update(message) => Labelled("PROGRESS", message)
    case Finish(message) => Labelled("PROGRESS", message)
    case Clear => ""
    case Write(level, message) => Labelled(LevelName(level), Take(message, MESSAGE_MAX))
  }

  predicate Enabled(level: int, threshold: int) {
    LEVEL_NONE < level <= threshold
  }

  /** One operation on the ideal screen: whole lines only, and at most one live line. */
  function Shown(s: Screen, op: Op, tty: bool, threshold: int): Screen {
    match op
    case Update(_) =>
      if !Enabled(LEVEL_INFO, threshold) then s
      else if tty then s.(live := TextOf(op)) else s.(lines := s.lines + [TextOf(op)])
    case Finish(_) =>
      if !Enabled(LEVEL_INFO, threshold) then s else Screen(s.lines + [TextOf(op)], "")
    case Clear => s.(live := "")
    case Write(level, _) =>
      if !Enabled(level, threshold) then s else Screen(s.lines + [TextOf(op)], "")
  }

  function ShownAll(s: Screen, ops: seq<Op>, n: nat, tty: bool, threshold: int): Screen
    requires n <= |ops|
  {
    if n == 0 then s else Shown(ShownAll(s, ops, n - 1, tty, threshold), ops[n - 1], tty, threshold)
  }

  /** A message is shown whole, after its level, if its level is 1 to the threshold; of a longer one
      the first 1023 bytes. */
  lemma WriteShown(s: Screen, level: int, message: string, tty: bool, threshold: int)
    ensures Shown(s, Write(level, message), tty, threshold) ==
            if 1 <= level <= threshold
            then Screen(s.lines + ["[" + LevelName(level) + "] " + if |message| <= 1023 then message else message[..1023]], "")
            else s
  {
  }

  lemma LevelNames()
    ensures LevelName(1) == "ERROR" && LevelName(2) == "WARN" && LevelName(3) == "INFO" && LevelName(4) == "DEBUG"
  {
  }

  /** Progress is shown from level 3 on: on a terminal as the live line, elsewhere as a line. */
  lemma ProgressShown(s: Screen, message: string, threshold: int)
    requires threshold >= 3
    ensures Shown(s, Update(message), true, threshold) == s.(live := "[PROGRESS] " + message)
    ensures Shown(s, Update(message), false, threshold) == s.(lines := s.lines + ["[PROGRESS] " + message])
    ensures forall tty :: Shown(s, Finish(message), tty, threshold) == Screen(s.lines + ["[PROGRESS] " + message], "")
    ensures forall tty, t :: Shown(s, Clear, tty, t) == s.(live := "")
  {
    assert Labelled("PROGRESS", message) == "[PROGRESS] " + message;
  }

  // ---------- What the terminal holds ----------

  /** The row holds exactly this text and then only blanks. */
  predicate Displays(row: string, text: string) {
    text <= row && forall i :: |text| <= i < |row| ==> row[i] == ' '
  }

  /** The row after printing `s` from column `col`. */
  function Over(row: string, col: nat, s: string): string
    requires col <= |row|
  {
    row[..col] + s + if col + |s| < |row| then row[col + |s|..] else ""
  }

  lemma OverNothing(row: string, col: nat)
    requires col <= |row|
    ensures Over(row, col, "") == row
  {
  }

  /** Printing one more character. */
  lemma OverSnoc(row: string, col: nat, s: string, c: char)
    requires col <= |row|
    ensures var before := Over(row, col, s); var at := col + |s|;
            && at <= |before|
            && Over(row, col, s + [c]) == if at < |before| then before[at := c] else before + [c]
  {
  }

  function Spaces(n: nat): (s: string)
    ensures |s| == n && Plain(s) && forall i :: 0 <= i < n ==> s[i] == ' '
  {
    seq(n, _ => ' ')
  }

  class Logger {
    const tty: bool
    const columns: nat
    var threshold: int
    var active: bool
    var width: nat
    // The terminal: finished rows, the row of the cursor, and the cursor's column.
    var rows: seq<string>
    var row: string
    var col: nat
    ghost var screen: Screen

    /** Every finished row is one whole line plus blanks; the current row is the live line plus
        blanks, and `width` covers it; without a live line the row is blank. */
    ghost predicate Valid()
      reads this
    {
      && |rows| == |screen.lines| && (forall i :: 0 <= i < |rows| ==> Displays(rows[i], screen.lines[i]))
      && Displays(row, screen.live) && col <= |row| && (tty ==> |row| <= columns)
      && (if active then tty && width == |screen.live| + 1 && |screen.live| < columns
          else screen.live == "" && col == 0)
    }

    constructor (tty: bool, columns: nat, threshold: int)
      ensures Valid() && screen == Screen([], "") && this.tty == tty && this.columns == columns && this.threshold == threshold
    {
      this.tty, this.columns, this.threshold := tty, columns, threshold;
      active, width, rows, row, col, screen := false, 0, [], "", 0, Screen([], "");
    }

    method Return()
      modifies this`col
      ensures col == 0
    {
      col := 0;
    }

    method Newline()
      modifies this`rows, this`row, this`col
      ensures rows == old(rows) + [old(row)] && row == "" && col == 0
    {
      rows := rows + [row];
      row, col := "", 0;
    }

    /** Prints characters one by one; nothing wraps. */
    method Print(s: string)
      requires Plain(s) && col <= |row| && (tty ==> |row| <= columns && col + |s| <= columns)
      modifies this`row, this`col
      ensures row == Over(old(row), old(col), s) && col == old(col) + |s| && col <= |row| && (tty ==> |row| <= columns)
    {
      hide Over;
      OverNothing(row, col);
      for i := 0 to |s|
        invariant col == old(col) + i && col <= |row| && (tty ==> |row| <= columns) && row == Over(old(row), old(col), s[..i])
      {
        OverSnoc(old(row), old(col), s[..i], s[i]);
        assert s[..i + 1] == s[..i] + [s[i]];
        row := if col < |row| then row[col := s[i]] else row + [s[i]];
        col := col + 1;
      }
      assert s[..|s|] == s;
    }

    /** Prints one whole line from the start of a blank row. */
    method RenderLine(text: string)
      requires Valid() && !active && Plain(text) && (tty ==> |text| < columns)
      modifies this
      ensures Valid() && !active && screen == Screen(old(screen).lines + [text], "")
      ensures threshold == old(threshold)
    {
      OverDisplays(row, "", text, 0);
      Print(text);
      Newline();
      screen := Screen(screen.lines + [text], "");
    }

    /** `log_render_progress`. */
    method RenderProgress(message: string, final: bool)
      requires Valid() && Plain(message) && (tty ==> |Labelled("PROGRESS", message)| < columns)
      modifies this
      ensures Valid() && threshold == old(threshold)
      ensures screen == Shown(old(screen), if final then Finish(message) else Update(message), tty, threshold)
    {
      if !Enabled(LEVEL_INFO, threshold) { return; }
      var text := Labelled("PROGRESS", message);
      LabelPlain("PROGRESS", message);
      if !tty {
        RenderLine(text);
        return;
      }
      var printedWidth := 1 + |text|;
      var padding := if active && printedWidth < width then width - printedWidth else 0;
      OverDisplays(row, screen.live, text, padding);
      Return();
      Print(text);
      Print(Spaces(padding));
      if final {
        Newline();
        screen := Screen(screen.lines + [text], "");
        active, width := false, 0;
        return;
      }
      screen := screen.(live := text);
      active, width := true, printedWidth;
    }

    /** `log_progress_clear`: blanks the live line, one column past its end. */
    method ClearProgress()
      requires Valid()
      modifies this
      ensures Valid() && !active && screen == old(screen).(live := "") && threshold == old(threshold)
      ensures screen == Shown(old(screen), Clear, tty, threshold)
    {
      if !active || !tty {
        active, width := false, 0;
        return;
      }
      OverDisplays(row, screen.live, "", width);
      Return();
      Print(Spaces(width));
      Return();
      screen := screen.(live := "");
      active, width := false, 0;
    }

    /** `log_vwrite`, to the terminal. */
    method WriteLine(level: int, message: string)
      requires Valid() && Plain(message) && (tty ==> |TextOf(Write(level, message))| < columns)
      modifies this
      ensures Valid() && threshold == old(threshold)
      ensures screen == Shown(old(screen), Write(level, message), tty, threshold)
    {
      if !Enabled(level, threshold) { return; }
      if active { ClearProgress(); }
      LabelPlain(LevelName(level), Take(message, MESSAGE_MAX));
      RenderLine(TextOf(Write(level, message)));
    }

    /** Any sequence of operations on messages narrower than the row leaves the ideal screen: no
        character of an older message is left anywhere. */
    method Execute(ops: seq<Op>)
      requires Valid() && forall i :: 0 <= i < |ops| ==> Printable(ops[i], tty, columns)
      modifies this
      ensures Valid() && screen == ShownAll(old(screen), ops, |ops|, tty, old(threshold))
    {
      hide Displays, Plain, Labelled, LevelName, Shown;
      for i := 0 to |ops|
        invariant Valid() && threshold == old(threshold)
        invariant screen == ShownAll(old(screen), ops, i, tty, threshold)
      {
        match ops[i]
        case Update(message) => RenderProgress(message, false);
        case Finish(message) => RenderProgress(message, true);
        case Clear => ClearProgress();
        case Write(level, message) => WriteLine(level, message);
      }
    }
  }

  /** A single-line message that leaves at least one column of a terminal row free. */
  predicate Printable(op: Op, tty: bool, columns: nat) {
    && (op.Clear? || Plain(op.message))
    && (tty ==> |TextOf(op)| < columns)
  }

  lemma LabelPlain(tag: string, message: string)
    requires Plain(message) && (tag == "PROGRESS" || exists level :: tag == LevelName(level))
    ensures Plain(Labelled(tag, message))
  {
  }

  /** Printing a text and then blanks over the rest of an older one leaves the text and blanks. */
  lemma OverDisplays(row: string, older: string, text: string, padding: nat)
    requires Displays(row, older) && |text| + padding >= |older|
    ensures var once := Over(row, 0, text);
            |text| <= |once| && Displays(Over(once, |text|, Spaces(padding)), text)
    ensures padding == 0 ==> Displays(Over(row, 0, text), text)
  {
  }
}
