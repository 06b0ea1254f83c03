/** The label wrapper of the education tree (three.js): a label's text is
    split at whitespace and its words are laid out greedily on `tspan`
    lines no wider than a given width. The text-measuring call of the
    browser is a parameter: a function from a line's text to its width. */
module WordWrap {

  /** The characters `\s` matches in a JavaScript regular expression. */
  predicate IsSpace(c: char) {
    c == ' ' || c == '\t' || c == '\n' || c == '\r' || c == '\U{000B}' || c == '\U{000C}' ||
    c == '\U{00A0}' || c == '\U{1680}' || ('\U{2000}' <= c <= '\U{200A}') || c == '\U{2028}' ||
    c == '\U{2029}' || c == '\U{202F}' || c == '\U{205F}' || c == '\U{3000}' || c == '\U{FEFF}'
  }

  predicate NoSpace(w: string) {
    forall i :: 0 <= i < |w| ==> !IsSpace(w[i])
  }

  // ---------------------------------------------------------------------
  // text.split(/\s+/)

  /** The longest prefix of s without whitespace. */
  function Word(s: string): (w: string)
    ensures |w| <= |s|
    decreases |s|
  {
    if s == [] || IsSpace(s[0]) then [] else [s[0]] + Word(s[1..])
  }

  /** Word(s) is a prefix of s without whitespace, and whitespace or the
      end of s follows it. */
  lemma {:induction false} WordFacts(s: string)
    ensures Word(s) == s[..|Word(s)|] && NoSpace(Word(s))
    ensures |Word(s)| < |s| ==> IsSpace(s[|Word(s)|])
    decreases |s|
  {
    if s != [] && !IsSpace(s[0]) {
      WordFacts(s[1..]);
      assert Word(s) == [s[0]] + Word(s[1..]);
    }
  }

  /** s without its leading whitespace. */
  function SkipSpaces(s: string): (r: string)
    ensures |r| <= |s|
    decreases |s|
  {
    if s != [] && IsSpace(s[0]) then SkipSpaces(s[1..]) else s
  }

  /** SkipSpaces(s) is a suffix of s that does not start with whitespace. */
  lemma {:induction false} SkipFacts(s: string)
    ensures SkipSpaces(s) == s[|s| - |SkipSpaces(s)|..]
    ensures SkipSpaces(s) == [] || !IsSpace(SkipSpaces(s)[0])
    decreases |s|
  {
    if s != [] && IsSpace(s[0]) {
      SkipFacts(s[1..]);
      assert s[1..][|s| - 1 - |SkipSpaces(s)|..] == s[|s| - |SkipSpaces(s)|..];
    }
  }

  /** `s.split(/\s+/)`: the pieces between maximal runs of whitespace.
      Leading or trailing whitespace gives an empty first or last piece,
      and the empty string gives one empty piece. */
  function Split(s: string): (ws: seq<string>)
    ensures |ws| >= 1
    decreases |s|
  {
    var w := Word(s);
    if |w| == |s| then [w] else [w] + Split(SkipSpaces(s[|w|..]))
  }

  /** What `split(/\s+/)` promises of its pieces: none holds whitespace,
      and only the first and the last can be empty. */
  predicate Pieces(ws: seq<string>) {
    (forall i :: 0 <= i < |ws| ==> NoSpace(ws[i])) &&
    (forall i :: 0 < i < |ws| - 1 ==> ws[i] != [])
  }

  /** Split(s) when s holds whitespace: its first word, then the split of
      what follows the whitespace run. */
  lemma SplitCons(s: string)
    requires |Word(s)| < |s|
    ensures Split(s) == [Word(s)] + Split(SkipSpaces(s[|Word(s)|..]))
  {
  }

  /** A word without whitespace in front of pieces that start with a
      non-empty one keeps them pieces. */
  lemma PiecesCons(w: string, t: seq<string>)
    requires NoSpace(w) && Pieces(t) && (|t| > 1 ==> t[0] != [])
    ensures Pieces([w] + t)
  {
    var ws := [w] + t;
    assert forall i :: 1 <= i < |ws| ==> ws[i] == t[i - 1];
  }

  /** The pieces of a split never hold whitespace, and only the first and
      the last can be empty. */
  lemma {:induction false} SplitPieces(s: string)
    ensures Pieces(Split(s))
    decreases |s|
  {
    if |Word(s)| < |s| {
      var r := SkipSpaces(s[|Word(s)|..]);
      WordFacts(s);
      SkipFacts(s[|Word(s)|..]);
      SplitCons(s);
      SplitPieces(r);
      SplitFirst(r);
      if r == [] {
        assert Split(r) == [[]];
      }
      PiecesCons(Word(s), Split(r));
    } else {
      WordFacts(s);
      assert Split(s) == [Word(s)];
    }
  }

  /** The first piece is empty exactly when the text is empty or starts
      with whitespace. */
  lemma SplitFirst(s: string)
    ensures Split(s)[0] == Word(s)
    ensures Split(s)[0] == [] <==> s == [] || IsSpace(s[0])
  {
  }

  /** Splitting a word followed by whitespace. */
  lemma SplitStep(w: string, rest: string)
    requires NoSpace(w) && rest != [] && IsSpace(rest[0])
    ensures Split(w + rest) == [w] + Split(SkipSpaces(rest))
  {
    WordPrefix(w, rest);
    assert (w + rest)[|w|..] == rest;
  }

  /** One space before a word is skipped. */
  lemma SkipOne(t: string)
    requires t != [] && !IsSpace(t[0])
    ensures SkipSpaces(" " + t) == t
  {
    assert (" " + t)[1..] == t;
  }

  /** A word, one space and a text starting with a word split into that
      word and the split of the text. */
  lemma SplitSpaced(w: string, t: string)
    requires NoSpace(w) && t != [] && !IsSpace(t[0])
    ensures Split(w + (" " + t)) == [w] + Split(t)
  {
    SplitStep(w, " " + t);
    SkipOne(t);
  }

  /** Joining two or more words puts one space after the first. */
  lemma JoinCons(ws: seq<string>)
    requires |ws| > 1
    ensures Join(ws) == ws[0] + (" " + Join(ws[1..]))
  {
  }

  /** Words separated by single spaces split back into those words. */
  lemma {:induction false} SplitJoin(ws: seq<string>)
    requires ws != [] && forall i :: 0 <= i < |ws| ==> ws[i] != [] && NoSpace(ws[i])
    ensures Split(Join(ws)) == ws
    decreases |ws|
  {
    if |ws| > 1 {
      var tail := ws[1..];
      assert forall i :: 0 <= i < |tail| ==> tail[i] == ws[i + 1];
      SplitJoin(tail);
      JoinStart(tail);
      JoinCons(ws);
      SplitSpaced(ws[0], Join(tail));
      assert ws == [ws[0]] + tail;
    } else {
      WordPrefix(ws[0], []);
      assert ws[0] + [] == ws[0];
    }
  }

  /** Word stops at the first whitespace after a word. */
  lemma {:induction false} WordPrefix(w: string, rest: string)
    requires NoSpace(w) && (rest == [] || IsSpace(rest[0]))
    ensures Word(w + rest) == w
    decreases |w|
  {
    if w != [] {
      assert (w + rest)[1..] == w[1..] + rest;
      WordPrefix(w[1..], rest);
    } else {
      assert w + rest == rest;
    }
  }

  /** A join of non-empty words does not start with whitespace. */
  lemma JoinStart(ws: seq<string>)
    requires ws != [] && ws[0] != [] && NoSpace(ws[0])
    ensures Join(ws) != [] && Join(ws)[0] == ws[0][0]
  {
    if |ws| > 1 {
      assert Join(ws) == ws[0] + (" " + Join(ws[1..]));
    }
  }

  // ---------------------------------------------------------------------
  // while (word = words.pop())

  /** The words the loop consumes: the pieces up to the first empty one,
      since an empty string ends the loop like the end of the list. */
  function TakeWords(ws: seq<string>): (r: seq<string>)
    ensures |r| <= |ws|
    decreases |ws|
  {
    if ws == [] || ws[0] == [] then [] else [ws[0]] + TakeWords(ws[1..])
  }

  /** The words taken are a prefix of non-empty pieces, followed by an
      empty piece or the end. */
  lemma {:induction false} TakeWordsFacts(ws: seq<string>)
    ensures TakeWords(ws) == ws[..|TakeWords(ws)|]
    ensures forall i :: 0 <= i < |TakeWords(ws)| ==> TakeWords(ws)[i] != []
    ensures |TakeWords(ws)| == |ws| || ws[|TakeWords(ws)|] == []
    decreases |ws|
  {
    if ws != [] && ws[0] != [] {
      TakeWordsFacts(ws[1..]);
      var t := TakeWords(ws[1..]);
      assert TakeWords(ws) == [ws[0]] + t;
      assert forall i :: 1 <= i < |t| + 1 ==> TakeWords(ws)[i] == t[i - 1];
      assert ws[..|t| + 1] == [ws[0]] + ws[1..][..|t|];
    }
  }

  /** The prefix of non-empty words is the only one ending at an empty word
      or at the end. */
  lemma {:induction false} TakeWordsAt(ws: seq<string>, k: int)
    requires 0 <= k <= |ws| && (forall i :: 0 <= i < k ==> ws[i] != [])
    requires k == |ws| || ws[k] == []
    ensures TakeWords(ws) == ws[..k]
    decreases k
  {
    if k > 0 {
      TakeWordsAt(ws[1..], k - 1);
      assert ws[..k] == [ws[0]] + ws[1..][..k - 1];
    }
  }

  /** The words of a label's text. */
  function Words(text: string): seq<string> {
    TakeWords(Split(text))
  }

  /** Text that is empty or starts with whitespace places no word at all,
      and other text places at least one. */
  lemma WordsNone(text: string)
    ensures Words(text) == [] <==> text == [] || IsSpace(text[0])
  {
    var ws := Split(text);
    assert ws[0] == [] <==> text == [] || IsSpace(text[0]) by {
      SplitFirst(text);
    }
    assert ws[0] != [] ==> TakeWords(ws) != [];
  }

  /** Text that starts with a word places every piece of its split but a
      trailing empty one. */
  lemma WordsKept(text: string)
    requires text != [] && !IsSpace(text[0])
    ensures Words(text) == (if Split(text)[|Split(text)| - 1] == [] then Split(text)[..|Split(text)| - 1] else Split(text))
  {
    SplitMiddle(text);
    SplitFirst(text);
    TakePieces(Split(text));
  }

  /** The pieces of a split strictly between the first and the last are
      words. */
  lemma SplitMiddle(s: string)
    ensures forall i :: 0 < i < |Split(s)| - 1 ==> Split(s)[i] != []
  {
    SplitPieces(s);
  }

  /** The loop over pieces takes none when the first is empty, and
      otherwise all of them but a trailing empty one. */
  lemma TakePieces(ws: seq<string>)
    requires ws != [] && forall i :: 0 < i < |ws| - 1 ==> ws[i] != []
    ensures TakeWords(ws) == [] <==> ws[0] == []
    ensures ws[0] != [] ==> TakeWords(ws) == if ws[|ws| - 1] == [] then ws[..|ws| - 1] else ws
  {
    if ws[0] != [] {
      if ws[|ws| - 1] == [] {
        TakeWordsAt(ws, |ws| - 1);
        assert ws[..|ws| - 1][0] == ws[0];
      } else {
        TakeWordsAt(ws, |ws|);
        assert ws[..|ws|] == ws;
      }
    }
  }

  /** `line.join(" ")`. */
  function Join(ws: seq<string>): string
    decreases |ws|
  {
    if ws == [] then "" else if |ws| == 1 then ws[0] else ws[0] + " " + Join(ws[1..])
  }

  /** The concatenation of the lines. */
  function Concat(lines: seq<seq<string>>): seq<string>
    decreases |lines|
  {
    if lines == [] then [] else Concat(lines[..|lines| - 1]) + lines[|lines| - 1]
  }

  /** `words.reverse()` */
  function Reverse(ws: seq<string>): (r: seq<string>)
    ensures |r| == |ws|
    decreases |ws|
  {
    if ws == [] then [] else Reverse(ws[1..]) + [ws[0]]
  }

  /** The last of the reversed list is the first of the list, and popping
      it leaves the reversed rest. */
  lemma ReversePop(ws: seq<string>)
    requires ws != []
    ensures Reverse(ws)[|ws| - 1] == ws[0]
    ensures Reverse(ws)[..|ws| - 1] == Reverse(ws[1..])
  {
  }

  lemma ConcatSnoc(lines: seq<seq<string>>, line: seq<string>)
    ensures Concat(lines + [line]) == Concat(lines) + line
  {
    assert (lines + [line])[..|lines|] == lines;
  }

  // ---------------------------------------------------------------------
  // wrap(text, width)

  /** The spacing between lines, in em. */
  const LineHeight: real := 1.2

  /** A line of the label: its text and its vertical offset in em. */
  datatype Tspan = Tspan(text: string, dy: real)

  /** The tspan of line i, holding the words ws. */
  function TspanAt(ws: seq<string>, i: nat, dy: real): Tspan {
    Tspan(Join(ws), (i as real) * LineHeight + dy)
  }

  /** Lines after the first are never empty. */
  predicate OnlyFirstEmpty(lines: seq<seq<string>>) {
    forall i :: 0 < i < |lines| ==> lines[i] != []
  }

  /** Every line of two words or more fits the width. */
  predicate Fits(lines: seq<seq<string>>, width: real, measure: string -> real) {
    forall i :: 0 <= i < |lines| && |lines[i]| >= 2 ==> measure(Join(lines[i])) <= width
  }

  /** Each line after the first starts with a word that did not fit on the
      line before it. */
  predicate Greedy(lines: seq<seq<string>>, width: real, measure: string -> real) {
    forall i :: 0 < i < |lines| ==>
      lines[i] != [] && measure(Join(lines[i - 1] + [lines[i][0]])) > width
  }

  /** One step of the loop: the word joins the last line, or, when that
      line then measures more than the width, starts a new one. */
  function Place(lines: seq<seq<string>>, w: string, width: real, measure: string -> real): seq<seq<string>>
    requires lines != []
  {
    var n := |lines| - 1;
    if measure(Join(lines[n] + [w])) > width then lines + [[w]]
    else lines[..n] + [lines[n] + [w]]
  }

  /** The lines the loop builds from the words ws: one empty line to start,
      then each word placed in turn. */
  function Layout(ws: seq<string>, width: real, measure: string -> real): (lines: seq<seq<string>>)
    ensures lines != []
    decreases |ws|
  {
    if ws == [] then [[]]
    else Place(Layout(ws[..|ws| - 1], width, measure), ws[|ws| - 1], width, measure)
  }

  /** Placing a word after the lines done and the current line. */
  lemma PlaceLast(done: seq<seq<string>>, line: seq<string>, w: string, width: real, measure: string -> real)
    ensures Place(done + [line], w, width, measure) ==
              if measure(Join(line + [w])) > width then done + [line] + [[w]] else done + [line + [w]]
  {
    var ls := done + [line];
    assert ls[..|ls| - 1] == done;
  }

  /** One more word is placed on the layout of the words before it. */
  lemma LayoutSnoc(ws: seq<string>, w: string, width: real, measure: string -> real)
    ensures Layout(ws + [w], width, measure) == Place(Layout(ws, width, measure), w, width, measure)
  {
    assert (ws + [w])[..|ws|] == ws;
  }

  /** Placing the next word: it joins the last line when the line still
      fits, and starts a new line otherwise. */
  lemma LayoutStep(ws: seq<string>, w: string, width: real, measure: string -> real,
                   done: seq<seq<string>>, line: seq<string>)
    requires done + [line] == Layout(ws, width, measure)
    ensures Layout(ws + [w], width, measure) ==
              if measure(Join(line + [w])) > width then done + [line] + [[w]] else done + [line + [w]]
  {
    LayoutSnoc(ws, w, width, measure);
    PlaceLast(done, line, w, width, measure);
  }

  /** The lines hold the words in order, none lost or repeated. */
  lemma {:induction false} LayoutConcat(ws: seq<string>, width: real, measure: string -> real)
    ensures Concat(Layout(ws, width, measure)) == ws
    decreases |ws|
  {
    if ws != [] {
      var p := ws[..|ws| - 1];
      var w := ws[|ws| - 1];
      var ls := Layout(p, width, measure);
      var n := |ls| - 1;
      var done, line := ls[..n], ls[n];
      assert ls == done + [line];
      LayoutConcat(p, width, measure);
      assert ws == p + [w];
      LayoutStep(p, w, width, measure, done, line);
      ConcatSnoc(done, line);
      if measure(Join(line + [w])) > width {
        ConcatSnoc(ls, [w]);
      } else {
        ConcatSnoc(done, line + [w]);
      }
    }
  }

  /** Only the first line can be empty, and it is empty exactly when the
      text has no words or its first word alone is wider than the width;
      the last line holds the last word. */
  lemma {:induction false} LayoutFirst(ws: seq<string>, width: real, measure: string -> real)
    ensures OnlyFirstEmpty(Layout(ws, width, measure))
    ensures Layout(ws, width, measure)[0] == [] <==> ws == [] || measure(ws[0]) > width
    ensures ws != [] ==> Layout(ws, width, measure)[|Layout(ws, width, measure)| - 1] != []
    decreases |ws|
  {
    if ws != [] {
      var p := ws[..|ws| - 1];
      var w := ws[|ws| - 1];
      var ls := Layout(p, width, measure);
      var n := |ls| - 1;
      LayoutFirst(p, width, measure);
      if measure(Join(ls[n] + [w])) > width {
        var r := ls + [[w]];
        assert Layout(ws, width, measure) == r;
        assert r[0] == ls[0] && r[|r| - 1] == [w];
        if p == [] {
          assert ls == [[]];
          assert Join([] + [w]) == w && ws[0] == w;
          assert r[0] == [];
        } else {
          assert p[0] == ws[0];
          assert r[0] == [] <==> measure(ws[0]) > width;
        }
      } else {
        var r := ls[..n] + [ls[n] + [w]];
        assert Layout(ws, width, measure) == r;
        assert forall i :: 0 <= i < n ==> r[i] == ls[i];
        assert r[n] != [];
        if p == [] {
          assert ls == [[]];
          assert Join([] + [w]) == w && ws[0] == w;
          assert r[0] != [];
        } else {
          assert p[0] == ws[0];
          assert n == 0 ==> ls[0] != [];
          assert r[0] == [] <==> measure(ws[0]) > width;
        }
      }
    }
  }

  /** Placing a word keeps every line of two words or more within the
      width. */
  lemma PlaceFits(ls: seq<seq<string>>, w: string, width: real, measure: string -> real)
    requires ls != [] && Fits(ls, width, measure)
    ensures Fits(Place(ls, w, width, measure), width, measure)
  {
    var n := |ls| - 1;
    if measure(Join(ls[n] + [w])) <= width {
      var r := ls[..n] + [ls[n] + [w]];
      assert forall i :: 0 <= i < n ==> r[i] == ls[i];
    }
  }

  /** Every line of two words or more fits the width. */
  lemma {:induction false} LayoutFits(ws: seq<string>, width: real, measure: string -> real)
    ensures Fits(Layout(ws, width, measure), width, measure)
    decreases |ws|
  {
    if ws != [] {
      var p := ws[..|ws| - 1];
      LayoutFits(p, width, measure);
      PlaceFits(Layout(p, width, measure), ws[|ws| - 1], width, measure);
    }
  }

  /** Placing a word keeps every line after the first starting with the
      word that overflowed the line before it. */
  lemma PlaceGreedy(ls: seq<seq<string>>, w: string, width: real, measure: string -> real)
    requires ls != [] && Greedy(ls, width, measure)
    ensures Greedy(Place(ls, w, width, measure), width, measure)
  {
    var n := |ls| - 1;
    if measure(Join(ls[n] + [w])) > width {
      GreedyNewLine(ls, w, width, measure);
    } else {
      GreedyExtend(ls, w, width, measure);
    }
  }

  /** A word that overflows the last line starts a new one. */
  lemma GreedyNewLine(ls: seq<seq<string>>, w: string, width: real, measure: string -> real)
    requires ls != [] && Greedy(ls, width, measure)
    requires measure(Join(ls[|ls| - 1] + [w])) > width
    ensures Greedy(ls + [[w]], width, measure)
  {
    var r := ls + [[w]];
    forall i | 0 < i < |r|
      ensures r[i] != [] && measure(Join(r[i - 1] + [r[i][0]])) > width
    {
      assert r[i - 1] == ls[i - 1];
      if i < |ls| {
        assert r[i] == ls[i];
      }
    }
  }

  /** A word added to the last line leaves the first word of every line in
      place. */
  lemma GreedyExtend(ls: seq<seq<string>>, w: string, width: real, measure: string -> real)
    requires ls != [] && Greedy(ls, width, measure)
    ensures Greedy(ls[..|ls| - 1] + [ls[|ls| - 1] + [w]], width, measure)
  {
    var n := |ls| - 1;
    var r := ls[..n] + [ls[n] + [w]];
    forall i | 0 < i < |r|
      ensures r[i] != [] && measure(Join(r[i - 1] + [r[i][0]])) > width
    {
      assert r[i - 1] == ls[i - 1];
      if i < n {
        assert r[i] == ls[i];
      } else {
        assert r[i][0] == ls[i][0];
      }
    }
  }

  /** Every line but the first starts with the word that overflowed the
      line before it. */
  lemma {:induction false} LayoutGreedy(ws: seq<string>, width: real, measure: string -> real)
    ensures Greedy(Layout(ws, width, measure), width, measure)
    decreases |ws|
  {
    if ws != [] {
      var p := ws[..|ws| - 1];
      LayoutGreedy(p, width, measure);
      PlaceGreedy(Layout(p, width, measure), ws[|ws| - 1], width, measure);
    }
  }

  /** The tspans of the lines, line i at offset i * 1.2 + dy em. */
  function Tspans(lines: seq<seq<string>>, dy: real): (r: seq<Tspan>)
    ensures |r| == |lines| && forall i :: 0 <= i < |lines| ==> r[i] == TspanAt(lines[i], i, dy)
    decreases |lines|
  {
    if lines == [] then [] else Tspans(lines[..|lines| - 1], dy) + [TspanAt(lines[|lines| - 1], |lines| - 1, dy)]
  }

  lemma TspansSnoc(lines: seq<seq<string>>, line: seq<string>, dy: real)
    ensures Tspans(lines + [line], dy) == Tspans(lines, dy) + [TspanAt(line, |lines|, dy)]
  {
    assert (lines + [line])[..|lines|] == lines;
  }

  /** One turn of the loop: the word is pushed on the line, and when the
      line's tspan is then wider than the width the word is popped, the
      line is closed and the next line starts with the word. */
  method PlaceWord(word: string, width: real, dy: real, measure: string -> real,
                   done: seq<seq<string>>, line: seq<string>, tspans: seq<Tspan>, lineNumber: nat)
    returns (newDone: seq<seq<string>>, newLine: seq<string>, newTspans: seq<Tspan>,
             newLineNumber: nat, tspan: Tspan)
    requires lineNumber == |done| && tspans == Tspans(done, dy)
    ensures newDone + [newLine] == Place(done + [line], word, width, measure)
    ensures newLineNumber == |newDone| && newTspans == Tspans(newDone, dy)
    ensures tspan == TspanAt(newLine, newLineNumber, dy)
  {
    PlaceLast(done, line, word, width, measure);
    newDone, newTspans, newLineNumber := done, tspans, lineNumber;
    newLine := line + [word];
    tspan := TspanAt(newLine, lineNumber, dy);
    if measure(tspan.text) > width {
      newLine := newLine[..|newLine| - 1];
      assert newLine == line;
      TspansSnoc(done, line, dy);
      newTspans := tspans + [TspanAt(newLine, lineNumber, dy)];
      newDone := done + [newLine];
      newLine := [word];
      newLineNumber := lineNumber + 1;
      tspan := TspanAt(newLine, newLineNumber, dy);
    }
  }

  /** The lines that placing the words ws one by one makes of the lines
      ls. */
  function LayoutFrom(ls: seq<seq<string>>, ws: seq<string>, width: real, measure: string -> real): seq<seq<string>>
    requires ls != []
    decreases |ws|
  {
    if ws == [] then ls else LayoutFrom(Place(ls, ws[0], width, measure), ws[1..], width, measure)
  }

  /** Placing the words q on the layout of p lays out p + q. */
  lemma {:induction false} LayoutFromLayout(p: seq<string>, q: seq<string>, width: real, measure: string -> real)
    ensures LayoutFrom(Layout(p, width, measure), q, width, measure) == Layout(p + q, width, measure)
    decreases |q|
  {
    if q == [] {
      assert p + q == p;
    } else {
      var p1 := p + [q[0]];
      assert p1 + q[1..] == p + q;
      LayoutSnoc(p, q[0], width, measure);
      LayoutFromLayout(p1, q[1..], width, measure);
      assert LayoutFrom(Layout(p, width, measure), q, width, measure) ==
        LayoutFrom(Place(Layout(p, width, measure), q[0], width, measure), q[1..], width, measure);
    }
  }

  /** Wraps `text` into lines of at most `width` by the measure, placing
      words greedily, and gives line i's tspan the offset i * 1.2 + dy em. */
  method Wrap(text: string, width: real, dy: real, measure: string -> real)
    returns (lines: seq<seq<string>>, tspans: seq<Tspan>, lineNumber: nat)
    ensures lines == Layout(Words(text), width, measure)
    ensures lineNumber == |lines| - 1
    ensures tspans == Tspans(lines, dy)
  {
    ghost var rest := Split(text);
    var words := Reverse(Split(text));
    var line: seq<string> := [];
    var done: seq<seq<string>> := [];
    lineNumber := 0;
    var tspan := TspanAt(line, 0, dy);
    tspans := [];
    LayoutFromLayout([], Words(text), width, measure);
    assert [] + Words(text) == Words(text);
    assert Layout([], width, measure) == done + [line];
    assert TakeWords(rest) == Words(text);
    while words != [] && words[|words| - 1] != []
      invariant words == Reverse(rest)
      invariant LayoutFrom(done + [line], TakeWords(rest), width, measure) == Layout(Words(text), width, measure)
      invariant lineNumber == |done| && tspans == Tspans(done, dy)
      invariant tspan == TspanAt(line, lineNumber, dy)
      decreases |words|
    {
      ReversePop(rest);
      var word := words[|words| - 1];
      words := words[..|words| - 1];
      done, line, tspans, lineNumber, tspan := PlaceWord(word, width, dy, measure, done, line, tspans, lineNumber);
      rest := rest[1..];
    }
    lines := done + [line];
    TspansSnoc(done, line, dy);
    tspans := tspans + [tspan];
  }

  /** What the wrapped label shows: the words of the text in order, only
      the first line possibly empty, and a line wider than the width only
      when it holds a single word. */
  lemma WrapFacts(text: string, width: real, measure: string -> real)
    ensures var lines := Layout(Words(text), width, measure);
      Concat(lines) == Words(text) && OnlyFirstEmpty(lines) &&
      (lines[0] == [] <==> Words(text) == [] || measure(Words(text)[0]) > width) &&
      Fits(lines, width, measure) && Greedy(lines, width, measure) &&
      (Words(text) == [] <==> lines == [[]]) &&
      (forall i :: 0 <= i < |lines| && measure(Join(lines[i])) > width ==> |lines[i]| <= 1)
  {
    var ws := Words(text);
    LayoutConcat(ws, width, measure);
    LayoutFirst(ws, width, measure);
    LayoutFits(ws, width, measure);
    LayoutGreedy(ws, width, measure);
  }
}

