/** The "Export data" dialog: the file type, the directory and the file name of
    the export, and the action that writes the table's header and rows to it,
    one line each. */
module ExportMenus {
  import opened PyFormat
  import opened Definitions

  /** The types the file type selector offers. */
  const FileTypes: seq<string> := ["CSV", "TXT"]

  /** The file is written as comma-separated values only for this exact type. */
  predicate CsvMode(fileType: string)
  {
    fileType == ".csv"
  }

  /** Every cell stripped of surrounding white space. */
  function StripAll(cells: seq<string>): (r: seq<string>)
    ensures |r| == |cells| && forall i :: 0 <= i < |cells| ==> r[i] == Strip(cells[i])
  {
    seq(|cells|, i requires 0 <= i < |cells| => Strip(cells[i]))
  }

  /** What `join` iterates over in a row: the cells of a list row, or the
      characters, one string each, of a row that is a plain string (a unit
      sweep's raised entries). */
  function RowCells(item: RowItem): (cells: seq<string>)
    ensures item.Cells? ==> cells == item.cells
    ensures item.Line? ==> |cells| == |item.text| && forall i :: 0 <= i < |cells| ==> cells[i] == [item.text[i]]
  {
    match item
    case Cells(c) => c
    case Line(t) => seq(|t|, i requires 0 <= i < |t| => [t[i]])
  }

  /** One line of the file, without its line separator. */
  function Serialise(cells: seq<string>, fileType: string): string
  {
    if CsvMode(fileType) then Join(StripAll(cells), ",") else Join(cells, " ")
  }

  /** The lines of the file: the header's, then one per data row in order. */
  function FileLines(header: seq<string>, rows: seq<RowItem>, fileType: string): seq<string>
  {
    [Serialise(header, fileType)] + seq(|rows|, i requires 0 <= i < |rows| => Serialise(RowCells(rows[i]), fileType))
  }

  /** Lines each followed by the separator, as successive `write` calls leave them. */
  function Terminated(lines: seq<string>, sep: string): string
  {
    if lines == [] then "" else lines[0] + sep + Terminated(lines[1..], sep)
  }

  /** The name of the file: the name, a dot and the lower-cased type. */
  function FileName(name: string, fileType: string): string
  {
    name + "." + Lower(fileType)
  }

  /** os.path.join for two parts on a POSIX system: an absolute second part
      replaces the first, and a slash is put in between unless the first part
      is empty or already ends with one. */
  function PathJoin(dir: string, name: string): string
  {
    if |name| > 0 && name[0] == '/' then name
    else if dir == "" || dir[|dir| - 1] == '/' then dir + name
    else dir + "/" + name
  }

  /** The file's path, when the directory and the name are set. */
  function ExportPath(c: ExportConfig): Option<string>
  {
    if c.lastDir.Some? && c.lastFileName.Some? then Some(PathJoin(c.lastDir.value, FileName(c.lastFileName.value, c.lastFileType)))
    else None
  }

  /** A separator-free file name is the last component of the path. */
  lemma PathEndsWithName(dir: string, name: string)
    requires '/' !in name
    ensures var parts := Split(PathJoin(dir, name), '/'); parts[|parts| - 1] == name
  {
    if dir == "" {
      assert PathJoin(dir, name) == name;
      SplitNoSeparator(name, '/');
    } else if dir[|dir| - 1] == '/' {
      assert dir + name == dir[..|dir| - 1] + ['/'] + name;
      SplitAppendField(dir[..|dir| - 1], '/', name);
    } else {
      assert dir + "/" + name == dir + ['/'] + name;
      SplitAppendField(dir, '/', name);
    }
  }

  /** The two ways the file type is spelled disagree: the selector's "CSV"
      names the file `.csv` but writes it space-separated, while the default
      ".csv" writes comma-separated values into a file named `..csv`. */
  lemma FileTypeSpellings(name: string, cells: seq<string>)
    ensures FileName(name, "CSV") == name + ".csv" && Serialise(cells, "CSV") == Join(cells, " ")
    ensures FileName(name, DefaultExportConfig.lastFileType) == name + "..csv"
    ensures Serialise(cells, DefaultExportConfig.lastFileType) == Join(StripAll(cells), ",")
    ensures forall i :: 0 <= i < |FileTypes| ==> !CsvMode(FileTypes[i])
  {
    var l := Lower("CSV");
    assert l == "csv" by {
      assert l[0] == 'c' && l[1] == 's' && l[2] == 'v';
    }
    var d := Lower(".csv");
    assert d == ".csv" by {
      assert d[0] == '.' && d[1] == 'c' && d[2] == 's' && d[3] == 'v';
    }
  }

  /** Stripping never brings in a character. */
  lemma StripKeepsOut(x: string, c: char)
    requires c !in x
    ensures c !in Strip(x)
  {
    var l := StripLeft(x);
    assert l == x[|x| - |l|..];
    assert Strip(x) == l[..|Strip(x)|];
  }

  /** A join of parts and a separator without a character has none either. */
  lemma {:induction false} JoinKeepsOut(parts: seq<string>, sep: string, c: char)
    requires c !in sep && forall i :: 0 <= i < |parts| ==> c !in parts[i]
    ensures c !in Join(parts, sep)
    decreases |parts|
  {
    if |parts| > 1 {
      JoinKeepsOut(parts[1..], sep, c);
    }
  }

  /** A comma-separated line reads back as the stripped cells when no cell
      holds a comma. */
  lemma CsvLineRoundTrip(cells: seq<string>)
    requires |cells| >= 1 && forall i :: 0 <= i < |cells| ==> ',' !in cells[i]
    ensures Split(Serialise(cells, ".csv"), ',') == StripAll(cells)
  {
    var s := StripAll(cells);
    forall i | 0 <= i < |s|
      ensures ',' !in s[i]
    {
      StripKeepsOut(cells[i], ',');
    }
    JoinSplit(s, ',');
  }

  /** A space-separated line reads back as the cells themselves when no cell
      holds a space. */
  lemma TextLineRoundTrip(cells: seq<string>, fileType: string)
    requires !CsvMode(fileType)
    requires |cells| >= 1 && forall i :: 0 <= i < |cells| ==> ' ' !in cells[i]
    ensures Split(Serialise(cells, fileType), ' ') == cells
  {
    JoinSplit(cells, ' ');
  }

  /** A line holds a line break only if a cell does. */
  lemma LineKeepsOut(cells: seq<string>, fileType: string, c: char)
    requires c != ',' && c != ' ' && forall i :: 0 <= i < |cells| ==> c !in cells[i]
    ensures c !in Serialise(cells, fileType)
  {
    if CsvMode(fileType) {
      var s := StripAll(cells);
      forall i | 0 <= i < |s|
        ensures c !in s[i]
      {
        StripKeepsOut(cells[i], c);
      }
      JoinKeepsOut(s, ",", c);
    } else {
      JoinKeepsOut(cells, " ", c);
    }
  }

  lemma {:induction false} TerminatedJoin(lines: seq<string>, sep: string)
    ensures Terminated(lines, sep) == Join(lines + [""], sep)
    decreases |lines|
  {
    if lines != [] {
      TerminatedJoin(lines[1..], sep);
      assert (lines + [""])[1..] == lines[1..] + [""];
    }
  }

  lemma {:induction false} TerminatedAppend(lines: seq<string>, line: string, sep: string)
    ensures Terminated(lines + [line], sep) == Terminated(lines, sep) + line + sep
    decreases |lines|
  {
    if lines != [] {
      TerminatedAppend(lines[1..], line, sep);
      assert (lines + [line])[1..] == lines[1..] + [line];
    } else {
      assert Terminated([line], sep) == line + sep + Terminated([], sep);
    }
  }

  /** No line of the file holds a line break when no cell does. */
  lemma LinesKeepOut(header: seq<string>, rows: seq<RowItem>, fileType: string)
    requires forall j :: 0 <= j < |header| ==> '\n' !in header[j]
    requires forall i, j :: 0 <= i < |rows| && 0 <= j < |RowCells(rows[i])| ==> '\n' !in RowCells(rows[i])[j]
    ensures forall k :: 0 <= k < |FileLines(header, rows, fileType)| ==> '\n' !in FileLines(header, rows, fileType)[k]
  {
    var lines := FileLines(header, rows, fileType);
    LineKeepsOut(header, fileType, '\n');
    forall k | 1 <= k < |lines|
      ensures '\n' !in lines[k]
    {
      var row := RowCells(rows[k - 1]);
      assert forall j :: 0 <= j < |row| ==> '\n' !in row[j];
      LineKeepsOut(row, fileType, '\n');
    }
  }

  /** With "\n" as the line separator and no line break in any cell, the file
      reads back as one line for the header and one per row, in order, each
      ended by the separator. */
  lemma FileReadsBack(header: seq<string>, rows: seq<RowItem>, fileType: string)
    requires forall j :: 0 <= j < |header| ==> '\n' !in header[j]
    requires forall i, j :: 0 <= i < |rows| && 0 <= j < |RowCells(rows[i])| ==> '\n' !in RowCells(rows[i])[j]
    ensures var lines := FileLines(header, rows, fileType);
      && |lines| == |rows| + 1 && lines[0] == Serialise(header, fileType)
      && (forall i :: 0 <= i < |rows| ==> lines[i + 1] == Serialise(RowCells(rows[i]), fileType))
      && Split(Terminated(lines, "\n"), '\n') == lines + [""]
  {
    var lines := FileLines(header, rows, fileType);
    LinesKeepOut(header, rows, fileType);
    var parts := lines + [""];
    assert forall k :: 0 <= k < |lines| ==> parts[k] == lines[k];
    assert parts[|lines|] == "";
    TerminatedJoin(lines, "\n");
    JoinSplit(parts, '\n');
  }

  /** One more row adds its line at the end of the file. */
  lemma FileLinesAppend(header: seq<string>, rows: seq<RowItem>, row: RowItem, fileType: string)
    ensures FileLines(header, rows + [row], fileType) == FileLines(header, rows, fileType) + [Serialise(RowCells(row), fileType)]
  {
    var all := rows + [row];
    var a := seq(|all|, i requires 0 <= i < |all| => Serialise(RowCells(all[i]), fileType));
    var b := seq(|rows|, i requires 0 <= i < |rows| => Serialise(RowCells(rows[i]), fileType));
    var line := Serialise(RowCells(row), fileType);
    assert a == b + [line] by {
      forall i | 0 <= i < |a|
        ensures a[i] == (b + [line])[i]
      {
        if i < |rows| {
          assert all[i] == rows[i];
        }
      }
    }
    assert [Serialise(header, fileType)] + (b + [line]) == [Serialise(header, fileType)] + b + [line];
  }


  /** Joining the one-character strings of a text with a one-character
      separator puts the separator between every two characters. */
  lemma {:induction false} JoinChars(t: string, sep: char)
    requires t != []
    ensures var r := Join(RowCells(Line(t)), [sep]);
      && |r| == 2 * |t| - 1
      && forall i :: 0 <= i < |t| ==> r[2 * i] == t[i] && (i < |t| - 1 ==> r[2 * i + 1] == sep)
    decreases |t|
  {
    var cells := RowCells(Line(t));
    if |t| > 1 {
      var rest := RowCells(Line(t[1..]));
      assert cells[1..] == rest;
      JoinChars(t[1..], sep);
      var r := Join(cells, [sep]);
      var tail := Join(rest, [sep]);
      assert r == [t[0]] + [sep] + tail;
      forall i | 1 <= i < |t|
        ensures r[2 * i] == t[i] && (i < |t| - 1 ==> r[2 * i + 1] == sep)
      {
        assert r[2 * i] == tail[2 * (i - 1)];
        assert t[1..][i - 1] == t[i];
        if i < |t| - 1 {
          assert r[2 * i + 1] == tail[2 * (i - 1) + 1];
        }
      }
    }
  }

  /** A row that is a plain string is written one character per cell: in a
      text export with a space after every character but the last. */
  lemma LineRowSpread(t: string, fileType: string)
    requires !CsvMode(fileType) && t != []
    ensures var line := Serialise(RowCells(Line(t)), fileType);
      && |line| == 2 * |t| - 1
      && forall i :: 0 <= i < |t| ==> line[2 * i] == t[i] && (i < |t| - 1 ==> line[2 * i + 1] == ' ')
  {
    JoinChars(t, ' ');
  }

  /** The same row in a ".csv" export: each character becomes a field, and a
      white-space character an empty one. */
  lemma LineRowCsv(t: string)
    ensures var fields := StripAll(RowCells(Line(t)));
      && Serialise(RowCells(Line(t)), ".csv") == Join(fields, ",")
      && |fields| == |t|
      && forall i :: 0 <= i < |t| ==> fields[i] == if IsSpace(t[i]) then "" else [t[i]]
  {
    var cells := RowCells(Line(t));
    forall i | 0 <= i < |t|
      ensures Strip(cells[i]) == if IsSpace(t[i]) then "" else [t[i]]
    {
      StripChar(t[i]);
    }
  }

  /** A one-character string strips to nothing when the character is white
      space, and to itself otherwise. */
  lemma StripChar(c: char)
    ensures Strip([c]) == if IsSpace(c) then "" else [c]
  {
    if IsSpace(c) {
      assert StripLeft([c]) == StripLeft([c][1..]);
      assert [c][1..] == "";
    } else {
      assert StripLeft([c]) == [c];
      assert StripRight([c]) == [c];
    }
  }

  class ExportMenu {
    var configuration: ExportConfig
    /** The table's header; None when the table has none. */
    const header: Option<seq<string>>
    const dataRows: seq<RowItem>

    /** The settings from load_export_config; a missing directory becomes the
        project directory (None when get_project_dir fails) and a missing name
        the current Unix time `clock` in decimal. */
    constructor (loaded: ExportConfig, projectDir: Option<string>, clock: nat, header: Option<seq<string>>, dataRows: seq<RowItem>)
      ensures this.header == header && this.dataRows == dataRows
      ensures configuration.lastFileType == loaded.lastFileType
      ensures configuration.lastDir == if loaded.lastDir.None? then projectDir else loaded.lastDir
      ensures configuration.lastFileName == Some(if loaded.lastFileName.None? then Dec(clock) else loaded.lastFileName.value)
    {
      var c := loaded;
      if c.lastDir.None? {
        c := c.(lastDir := projectDir);
      }
      if c.lastFileName.None? {
        c := c.(lastFileName := Some(Dec(clock)));
      }
      configuration := c;
      this.header := header;
      this.dataRows := dataRows;
    }

    /** The value shown on the file name row: the name as it will be written. */
    function ShownFileName(): (shown: Option<string>)
      reads this
      ensures shown.Some? <==> configuration.lastFileName.Some?
      ensures shown.Some? && configuration.lastDir.Some? ==> ExportPath(configuration) == Some(PathJoin(configuration.lastDir.value, shown.value))
    {
      if configuration.lastFileName.Some? then Some(FileName(configuration.lastFileName.value, configuration.lastFileType)) else None
    }

    /** file_type: the selected type, if any, is kept. */
    method SetFileType(selection: Option<string>)
      modifies this
      ensures configuration == if selection.Some? then old(configuration).(lastFileType := selection.value) else old(configuration)
    {
      if selection.Some? {
        configuration := configuration.(lastFileType := selection.value);
      }
    }

    /** directory: the text is kept when it names a directory (`isDir`, the
        answer of os.path.isdir); otherwise a warning is shown (`warned`). */
    method SetDirectory(text: string, isDir: bool) returns (warned: bool)
      modifies this
      ensures warned == !isDir
      ensures configuration == if isDir then old(configuration).(lastDir := Some(text)) else old(configuration)
    {
      if !isDir {
        return true;
      }
      configuration := configuration.(lastDir := Some(text));
      return false;
    }

    /** file_name: whatever was typed is kept, even an empty name. */
    method SetFileName(text: string)
      modifies this
      ensures configuration == old(configuration).(lastFileName := Some(text))
    {
      configuration := configuration.(lastFileName := Some(text));
    }

    /** action: the file at ExportPath receives the header's line and then
        every row's, each followed by `linesep` (os.linesep). `writable` says
        whether the file can be opened and written; `error` is the exception's
        repr. A missing directory or name fails before anything is written. A
        missing header makes the first join raise once the file is open, so
        the file is left empty and the export fails. The answer is the file
        written, if any, and the status text passed to add_status_text with its
        failed flag. */
    method Action(writable: bool, linesep: string, error: string) returns (written: Option<(string, string)>, status: string, failed: bool)
      ensures failed <==> ExportPath(configuration).None? || !writable || header.None?
      ensures written == if ExportPath(configuration).None? || !writable then None
        else Some((ExportPath(configuration).value,
                   if header.None? then "" else Terminated(FileLines(header.value, dataRows, configuration.lastFileType), linesep)))
      ensures status == if failed then "Failed to export: " + error else "Successful export"
    {
      var c := configuration;
      if c.lastDir.None? || c.lastFileName.None? || !writable {
        return None, "Failed to export: " + error, true;
      }
      var file := PathJoin(c.lastDir.value, c.lastFileName.value + "." + Lower(c.lastFileType));
      if header.None? {
        return Some((file, "")), "Failed to export: " + error, true;
      }
      var csv := c.lastFileType == ".csv";
      var content := (if csv then Join(StripAll(header.value), ",") else Join(header.value, " ")) + linesep;
      ghost var lines := [Serialise(header.value, c.lastFileType)];
      assert content == Terminated(lines, linesep);
      for k := 0 to |dataRows|
        invariant lines == FileLines(header.value, dataRows[..k], c.lastFileType)
        invariant content == Terminated(lines, linesep)
      {
        var row := RowCells(dataRows[k]);
        var line := if csv then Join(StripAll(row), ",") else Join(row, " ");
        TerminatedAppend(lines, line, linesep);
        FileLinesAppend(header.value, dataRows[..k], dataRows[k], c.lastFileType);
        assert dataRows[..k + 1] == dataRows[..k] + [dataRows[k]];
        content := content + line + linesep;
        lines := lines + [line];
      }
      assert dataRows[..|dataRows|] == dataRows;
      return Some((file, content)), "Successful export", false;
    }
  }
}
