/**
 The `dataProcessing` task's transform of `data/readings.csv` into the
 document written to `dist/api/readings.json` (gulpfile.js:55-67): the text is
 split on '\n', every line is split on the regular expression /, ?/, and the
 first two pieces become `{city, temp}`. Nothing is trimmed, nothing is
 validated, and empty lines become entries too. The file read, the directory
 creation and the JSON write are left to the caller; the document is modelled
 abstractly, so a missing `temp` is `None` rather than a dropped JSON key.
 */
module Readings {
  import opened Optional
  import opened JsSplit

  /** One `{city, temp}` record. `temp` is `None` where JavaScript's array
      destructuring yields `undefined`: the line had no comma. */
  datatype Entry = Entry(city: string, temp: Option<string>)

  /** The written document: `{entries: [...]}` and nothing else. */
  datatype Document = Document(entries: seq<Entry>)

  /** `t` is the value field of `line` whose first comma sits at `i`: it starts
      after that comma and after the one space following it, if there is one,
      and runs up to the next comma or to the end of the line. */
  predicate IsTempField(line: string, i: nat, t: string) {
    && i < |line|
    && var start := if i + 1 < |line| && line[i + 1] == ' ' then i + 2 else i + 1;
       && t <= line[start..]
       && ',' !in t
       && (start + |t| < |line| ==> line[start + |t|] == ',')
  }

  /** The first piece of the comma split runs up to the first comma, and there
      is a second piece exactly when the line has a comma. */
  lemma FirstField(line: string)
    ensures var fields := Split(CommaOptionalSpace, line);
            var i := IndexOf(line, ',', 0);
            && fields[0] == line[..i]
            && ',' !in fields[0]
            && (|fields| >= 2 <==> i < |line|)
  {
    var i := IndexOf(line, ',', 0);
    PieceIsLeadFree(CommaOptionalSpace, line, 0);
    if i == |line| {
      SplitFromEnd(CommaOptionalSpace, line, 0);
    } else {
      SplitFromAt(CommaOptionalSpace, line, 0, i);
    }
  }

  /** The second piece of the comma split starts after the first separator
      and runs up to the next comma or to the end of the line. */
  lemma SecondField(line: string, i: nat)
    requires i < |line| && i == IndexOf(line, ',', 0)
    ensures var fields := Split(CommaOptionalSpace, line);
            var start := i + MatchLength(CommaOptionalSpace, line, i);
            && |fields| >= 2
            && fields[1] == line[start..IndexOf(line, ',', start)]
            && ',' !in fields[1]
  {
    var start := i + MatchLength(CommaOptionalSpace, line, i);
    var j := IndexOf(line, ',', start);
    SplitFromAt(CommaOptionalSpace, line, 0, i);
    PieceIsLeadFree(CommaOptionalSpace, line, start);
    if j == |line| {
      SplitFromEnd(CommaOptionalSpace, line, start);
    } else {
      SplitFromAt(CommaOptionalSpace, line, start, j);
    }
  }

  /** The record built from one line (the `map` callback at gulpfile.js:59-62). */
  function ParseLine(line: string): (e: Entry)
    ensures e.city <= line && ',' !in e.city
    ensures |e.city| < |line| ==> line[|e.city|] == ','
    ensures e.temp.None? <==> ',' !in line
    ensures e.temp.None? ==> e.city == line
    ensures e.temp.Some? ==> IsTempField(line, |e.city|, e.temp.value)
  {
    FirstField(line);
    IndexOfFirst(line, ',', 0);
    if ',' in line then
      SecondField(line, IndexOf(line, ',', 0));
      var fields := Split(CommaOptionalSpace, line);
      Entry(fields[0], Some(fields[1]))
    else
      Entry(Split(CommaOptionalSpace, line)[0], None)
  }

  /** The whole transform: one entry per '\n'-separated line, in order. */
  function Parse(text: string): (d: Document)
    ensures |d.entries| == multiset(text)['\n'] + 1
  {
    var lines := Split(Literal('\n'), text);
    SplitCount(Literal('\n'), text);
    Document(seq(|lines|, k requires 0 <= k < |lines| => ParseLine(lines[k])))
  }

  /** Entry `k` is built from line `k`, for any way of writing the text as
      lines joined by '\n': nothing is dropped, added or reordered. */
  lemma ParseFromLines(lines: seq<string>)
    requires |lines| >= 1
    requires forall k :: 0 <= k < |lines| ==> '\n' !in lines[k]
    ensures var d := Parse(Join(lines, '\n'));
            && |d.entries| == |lines|
            && forall k :: 0 <= k < |lines| ==> d.entries[k] == ParseLine(lines[k])
  {
    JoinSplit('\n', lines);
  }

  /** Appending a line to the file appends exactly its entry. */
  lemma ParseAppendsLine(text: string, line: string)
    requires '\n' !in line
    ensures Parse(text + ['\n'] + line).entries == Parse(text).entries + [ParseLine(line)]
  {
    var lines := Split(Literal('\n'), text);
    var all := lines + [line];
    SplitJoin('\n', text);
    JoinAppend(lines, '\n', line);
    assert Join(all, '\n') == text + ['\n'] + line;
    SplitPiecesExcludeLead(Literal('\n'), text);
    ParseFromLines(all);
    var before := Parse(text).entries;
    var after := Parse(text + ['\n'] + line).entries;
    assert |after| == |before| + 1;
    forall k | 0 <= k < |after|
      ensures after[k] == (before + [ParseLine(line)])[k]
    {
      if k < |before| {
        assert all[k] == lines[k];
      }
    }
  }

  /** A trailing newline adds one final entry with an empty city and no temp. */
  lemma TrailingNewline(text: string)
    ensures Parse(text + ['\n']).entries == Parse(text).entries + [Entry("", None)]
  {
    ParseAppendsLine(text, "");
    assert text + ['\n'] + "" == text + ['\n'];
  }

  /** An empty file gives one entry with an empty city and no temp. */
  lemma EmptyFile()
    ensures Parse("") == Document([Entry("", None)])
  {
    SplitWithoutLead(Literal('\n'), "");
  }

  /** Two comma-free prefixes of `u` that both end at a comma or at the end of
      `u` are the same prefix. */
  lemma CommaFreePrefixUnique(u: string, a: string, b: string)
    requires a <= u && ',' !in a && (|a| < |u| ==> u[|a|] == ',')
    requires b <= u && ',' !in b && (|b| < |u| ==> u[|b|] == ',')
    ensures a == b
  {
  }

  /** Writing a reading as `city, temp` (or `city,temp` when `temp` does not
      start with a space) and parsing the line gives the two fields back;
      whatever follows from the next comma on is ignored. */
  lemma ParseLineRoundTrip(city: string, separator: string, temp: string, ignored: string)
    requires ',' !in city && ',' !in temp
    requires separator == ", " || (separator == "," && (|temp| == 0 || temp[0] != ' '))
    requires |ignored| == 0 || ignored[0] == ','
    ensures ParseLine(city + separator + temp + ignored) == Entry(city, Some(temp))
  {
    var line := city + separator + temp + ignored;
    var e := ParseLine(line);
    assert line[|city|] == ',';
    assert city <= line;
    CommaFreePrefixUnique(line, e.city, city);
    var start := |city| + |separator|;
    assert start == (if |city| + 1 < |line| && line[|city| + 1] == ' ' then |city| + 2 else |city| + 1);
    var u := line[start..];
    assert u == temp + ignored;
    assert temp <= u;
    CommaFreePrefixUnique(u, e.temp.value, temp);
  }

  /** Only one space after the comma belongs to the separator; the rest stays. */
  lemma SeparatorTakesOneSpace()
    ensures ParseLine("a,  b") == Entry("a", Some(" b"))
    ensures ParseLine("a,b") == Entry("a", Some("b"))
    ensures ParseLine("a, b") == Entry("a", Some("b"))
  {
    ParseLineRoundTrip("a", ", ", " b", "");
    assert "a" + ", " + " b" + "" == "a,  b";
    ParseLineRoundTrip("a", ",", "b", "");
    assert "a" + "," + "b" + "" == "a,b";
    ParseLineRoundTrip("a", ", ", "b", "");
    assert "a" + ", " + "b" + "" == "a, b";
  }

  /** A carriage return is kept in the last field, a third field is dropped,
      and spaces around the city are kept. */
  lemma NoTrimmingNoThirdField()
    ensures ParseLine("NYC, 72\r") == Entry("NYC", Some("72\r"))
    ensures ParseLine("NYC, 72, F") == Entry("NYC", Some("72"))
    ensures ParseLine(" NYC ,72") == Entry(" NYC ", Some("72"))
  {
    ParseLineRoundTrip("NYC", ", ", "72\r", "");
    assert "NYC" + ", " + "72\r" + "" == "NYC, 72\r";
    ParseLineRoundTrip("NYC", ", ", "72", ", F");
    assert "NYC" + ", " + "72" + ", F" == "NYC, 72, F";
    ParseLineRoundTrip(" NYC ", ",", "72", "");
    assert " NYC " + "," + "72" + "" == " NYC ,72";
  }

  /** A file of one line holds one entry. */
  lemma SingleLine(line: string)
    requires '\n' !in line
    ensures Parse(line).entries == [ParseLine(line)]
  {
    SplitWithoutLead(Literal('\n'), line);
  }

  /** A reading written `city, temp` parses back to its two fields. */
  lemma ReadingLine(city: string, temp: string)
    requires ',' !in city && ',' !in temp
    ensures ParseLine(city + ", " + temp) == Entry(city, Some(temp))
  {
    ParseLineRoundTrip(city, ", ", temp, "");
    assert city + ", " + temp + "" == city + ", " + temp;
  }

  /** Two readings written `city, temp` and a trailing newline give three
      entries, the last one empty. */
  lemma TwoReadingsWithTrailingNewline(city1: string, temp1: string, city2: string, temp2: string)
    requires ',' !in city1 && ',' !in temp1 && ',' !in city2 && ',' !in temp2
    requires '\n' !in city1 && '\n' !in temp1 && '\n' !in city2 && '\n' !in temp2
    ensures Parse((city1 + ", " + temp1) + "\n" + (city2 + ", " + temp2) + "\n").entries
            == [Entry(city1, Some(temp1)), Entry(city2, Some(temp2)), Entry("", None)]
  {
    var line1 := city1 + ", " + temp1;
    var line2 := city2 + ", " + temp2;
    var e1 := Entry(city1, Some(temp1));
    var e2 := Entry(city2, Some(temp2));
    ReadingLine(city1, temp1);
    ReadingLine(city2, temp2);
    SingleLine(line1);
    ParseAppendsLine(line1, line2);
    assert Parse(line1 + ['\n'] + line2).entries == [e1, e2];
    TrailingNewline(line1 + ['\n'] + line2);
  }

  /** A file of two readings ending in a newline, `NYC, 72\nLA, 85\n`: the
      trailing newline yields a third entry. */
  lemma SampleFile()
    ensures Parse("NYC, 72\nLA, 85\n").entries
            == [Entry("NYC", Some("72")), Entry("LA", Some("85")), Entry("", None)]
  {
    var text := ("NYC" + ", " + "72") + "\n" + ("LA" + ", " + "85") + "\n";
    assert text == "NYC, 72\nLA, 85\n";
    TwoReadingsWithTrailingNewline("NYC", "72", "LA", "85");
  }
}
