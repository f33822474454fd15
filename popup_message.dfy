/** show_popup_message: the message is split at single spaces and the words are
    packed greedily into rows narrower than the text width; the popup is four
    rows higher than the number of rows. */
module PopupMessages {
  import opened PyFormat

  /** The text width: four columns less than the popup or, when the popup is at
      least as wide as the screen, than the screen. */
  function TextWidth(width: int, screenCols: int): (tw: int)
    ensures tw == Min(width, screenCols) - 4
  {
    if width < screenCols then width - 4 else screenCols - 4
  }

  /** The rows the packing loop produces from the row being built (`line`) and
      the words still to place: a word joins the row while the joined row stays
      shorter than `tw`, otherwise the row is closed and the word starts the
      next; the last row is kept unless it is empty. */
  function WrapRows(line: string, words: seq<string>, tw: int): seq<string>
    decreases |words|
  {
    if words == [] then (if |line| != 0 then [line] else [])
    else if |line + " " + words[0]| < tw then WrapRows(line + " " + words[0], words[1..], tw)
    else [line] + WrapRows(words[0], words[1..], tw)
  }

  /** The rows of a message. */
  function Wrap(message: string, tw: int): seq<string>
  {
    var words := Split(message, ' ');
    WrapRows(words[0], words[1..], tw)
  }

  /** The first space-separated word of a row. */
  function FirstWord(row: string): string
  {
    Split(row, ' ')[0]
  }

  /** The popup: its rows and its height. The drawing itself and the
      three-second pause are not modelled. */
  method ShowPopupMessage(screenCols: int, width: int, message: string) returns (rows: seq<string>, height: int)
    ensures rows == Wrap(message, TextWidth(width, screenCols))
    ensures height == |rows| + 4
  {
    var tw := if width < screenCols then width - 4 else screenCols - 4;
    var split := Split(message, ' ');
    var line := split[0];
    rows := [];
    var k := 1;
    while k < |split|
      invariant 1 <= k <= |split|
      invariant rows + WrapRows(line, split[k..], tw) == WrapRows(split[0], split[1..], tw)
      decreases |split| - k
    {
      var word := split[k];
      SeqTail(split, k);
      var newLine := line + " " + word;
      if |newLine| < tw {
        line := newLine;
        k := k + 1;
        continue;
      }
      SeqAssoc(rows, [line], WrapRows(word, split[k + 1..], tw));
      rows := rows + [line];
      line := word;
      k := k + 1;
    }
    if |line| != 0 {
      rows := rows + [line];
    }
    height := |rows| + 4;
  }

  /** `sep.join` does not care whether two parts were joined before. */
  lemma JoinMerge(a: string, b: string, rest: seq<string>, sep: string)
    ensures Join([a + sep + b] + rest, sep) == Join([a, b] + rest, sep)
  {
    if rest != [] {
      assert ([a + sep + b] + rest)[1..] == rest;
      assert ([a, b] + rest)[1..] == [b] + rest;
      assert ([b] + rest)[1..] == rest;
    }
  }

  /** No rows come out only when there is nothing left: an empty row under
      construction and no words. */
  lemma {:induction false} WrapEmpty(line: string, words: seq<string>, tw: int)
    ensures WrapRows(line, words, tw) == [] <==> line == "" && words == []
    decreases |words|
  {
    if words != [] && |line + " " + words[0]| < tw {
      WrapEmpty(line + " " + words[0], words[1..], tw);
    }
  }

  /** Joining the rows with spaces gives back the row under construction and
      the words, provided the last word is not empty. */
  lemma {:induction false} JoinWrap(line: string, words: seq<string>, tw: int)
    requires words != [] ==> words[|words| - 1] != ""
    ensures Join(WrapRows(line, words, tw), " ") == Join([line] + words, " ")
    decreases |words|
  {
    if words != [] {
      var w, rest := words[0], words[1..];
      assert words == [w] + rest;
      assert rest != [] ==> rest[|rest| - 1] == words[|words| - 1];
      assert ([line] + words)[1..] == words;
      if |line + " " + w| < tw {
        JoinWrap(line + " " + w, rest, tw);
        JoinMerge(line, w, rest, " ");
        assert [line, w] + rest == [line] + words;
      } else {
        var r := WrapRows(w, rest, tw);
        JoinWrap(w, rest, tw);
        WrapEmpty(w, rest, tw);
        assert ([line] + r)[1..] == r;
      }
    }
  }

  /** A non-empty string that does not end with the separator has a non-empty
      last field. */
  lemma {:induction false} LastFieldNonEmpty(s: string, c: char)
    requires s != [] && s[|s| - 1] != c
    ensures Split(s, c)[|Split(s, c)| - 1] != ""
    decreases |s|
  {
    if |s| > 1 {
      LastFieldNonEmpty(s[1..], c);
    }
  }

  /** The rows hold the message's words in order: unless the message ends with
      a space, joining the rows with single spaces gives the message back. */
  lemma WrapJoin(message: string, tw: int)
    requires message == [] || message[|message| - 1] != ' '
    ensures Join(Wrap(message, tw), " ") == message
  {
    var words := Split(message, ' ');
    if message != [] {
      LastFieldNonEmpty(message, ' ');
    }
    JoinWrap(words[0], words[1..], tw);
    assert [words[0]] + words[1..] == words;
    SplitJoin(message, ' ');
  }

  /** An empty message makes no rows and a popup four rows high. */
  lemma EmptyMessage(tw: int)
    ensures Wrap("", tw) == []
  {
    assert Split("", ' ') == [""];
  }

  /** Every row that holds more than one word is shorter than the text width;
      a row of one word is that word, however long. */
  lemma {:induction false} WrapRowsFit(line: string, words: seq<string>, tw: int)
    requires ' ' in line ==> |line| < tw
    requires forall i :: 0 <= i < |words| ==> ' ' !in words[i]
    ensures forall i :: 0 <= i < |WrapRows(line, words, tw)| ==>
      var row := WrapRows(line, words, tw)[i];
      (' ' in row ==> |row| < tw) && (' ' !in row ==> row == line || row in words)
    decreases |words|
  {
    if words != [] {
      var w, rest := words[0], words[1..];
      if |line + " " + w| < tw {
        WrapRowsFit(line + " " + w, rest, tw);
        assert ' ' in line + " " + w by {
          assert (line + " " + w)[|line|] == ' ';
        }
      } else {
        WrapRowsFit(w, rest, tw);
        var r := WrapRows(w, rest, tw);
        assert WrapRows(line, words, tw) == [line] + r;
        forall i | 1 <= i < |[line] + r|
          ensures ([line] + r)[i] == r[i - 1]
        {
        }
      }
    }
  }

  /** The rows of a message: a row of several words fits the text width, and a
      row of one word is a word of the message. */
  lemma RowsFit(message: string, tw: int)
    ensures forall i :: 0 <= i < |Wrap(message, tw)| ==>
      var row := Wrap(message, tw)[i];
      (' ' in row ==> |row| < tw) && (' ' !in row ==> row in Split(message, ' '))
  {
    var words := Split(message, ' ');
    SplitFields(message, ' ');
    assert forall i :: 0 <= i < |words| ==> ' ' !in words[i];
    assert words == [words[0]] + words[1..];
    WrapRowsFit(words[0], words[1..], tw);
  }

  /** The first row starts with the row under construction, followed by a space
      when anything was added to it. */
  lemma {:induction false} WrapHead(line: string, words: seq<string>, tw: int)
    ensures WrapRows(line, words, tw) != [] ==>
      var row := WrapRows(line, words, tw)[0];
      |line| <= |row| && row[..|line|] == line && (|line| < |row| ==> row[|line|] == ' ')
    decreases |words|
  {
    if words != [] && |line + " " + words[0]| < tw {
      var next := line + " " + words[0];
      WrapHead(next, words[1..], tw);
      if WrapRows(next, words[1..], tw) != [] {
        var row := WrapRows(next, words[1..], tw)[0];
        assert row[..|line|] == next[..|next|][..|line|];
        assert next[..|line|] == line && row[|line|] == next[|line|];
      }
    }
  }

  /** A string that starts with a space-free word, then ends or goes on with a
      space, has that word as its first word. */
  lemma FirstWordOf(x: string, s: string)
    requires ' ' !in x && |x| <= |s| && s[..|x|] == x && (|x| < |s| ==> s[|x|] == ' ')
    ensures FirstWord(s) == x
  {
    if |x| == |s| {
      assert s == x;
      SplitNoSeparator(x, ' ');
    } else {
      assert s == x + [' '] + s[|x| + 1..];
      SplitAfterField(x, ' ', s[|x| + 1..]);
    }
  }

  /** The packing is greedy: the first word of each row would not have fitted
      on the row before it. */
  lemma {:induction false} WrapGreedy(line: string, words: seq<string>, tw: int)
    requires forall i :: 0 <= i < |words| ==> ' ' !in words[i]
    ensures forall i :: 0 <= i < |WrapRows(line, words, tw)| - 1 ==>
      |WrapRows(line, words, tw)[i] + " " + FirstWord(WrapRows(line, words, tw)[i + 1])| >= tw
    decreases |words|
  {
    if words != [] {
      var w, rest := words[0], words[1..];
      WrapGreedy(if |line + " " + w| < tw then line + " " + w else w, rest, tw);
      if |line + " " + w| >= tw {
        var r := WrapRows(w, rest, tw);
        var rows := [line] + r;
        assert WrapRows(line, words, tw) == rows;
        WrapHead(w, rest, tw);
        if r != [] {
          FirstWordOf(w, r[0]);
          assert rows[1] == r[0];
        }
        forall i | 1 <= i < |rows| - 1
          ensures rows[i] == r[i - 1] && rows[i + 1] == r[i]
        {
        }
      }
    }
  }

  /** The rows of a message are packed greedily. */
  lemma RowsGreedy(message: string, tw: int)
    ensures forall i :: 0 <= i < |Wrap(message, tw)| - 1 ==>
      |Wrap(message, tw)[i] + " " + FirstWord(Wrap(message, tw)[i + 1])| >= tw
  {
    var words := Split(message, ' ');
    SplitFields(message, ' ');
    assert forall i :: 0 <= i < |words[1..]| ==> words[1..][i] == words[i + 1];
    WrapGreedy(words[0], words[1..], tw);
  }
}
