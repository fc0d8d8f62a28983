/**
 * A queued attendance record (`LogItem`), the tab-separated line it is
 * written as, the parser that reads such lines back from the fallback file,
 * and the name of the monthly remote blob the record belongs to.
 */
module Records {
  import opened Wrappers
  import opened Text
  import opened Timestamps

  /** One attendance record: when it was logged and the text that was logged. */
  datatype LogItem = LogItem(timestamp: Timestamp, text: string)

  /** Fixed file name of every monthly blob. */
  const BlobFile: string := "attendance.log"

  /**
   * `year=<y>/month=<mm>/attendance.log`: the year as `str` writes it, the
   * month as exactly two digits.
   */
  function BlobName(t: Timestamp): (r: string)
    ensures var y := Decimal(t.year);
            && |r| == |y| + 29
            && r[..5] == "year=" && r[5..5 + |y|] == y && r[5 + |y|..12 + |y|] == "/month="
            && AllDigits(r[12 + |y|..14 + |y|]) && ValueOf(r[12 + |y|..14 + |y|]) == t.month
            && r[14 + |y|..] == "/" + BlobFile
  {
    var y := Decimal(t.year);
    var m := Pad(t.month, 2);
    assert Pow10(2) == 100;
    PadFacts(t.month, 2);
    NameLayout(y, m);
    "year=" + y + "/month=" + m + "/" + BlobFile
  }

  /** Where the year and month fields sit in a blob name. */
  lemma NameLayout(y: string, m: string)
    requires |m| == 2
    ensures var r := "year=" + y + "/month=" + m + "/" + BlobFile;
            && |r| == |y| + 29
            && r[..5] == "year=" && r[5..5 + |y|] == y && r[5 + |y|..12 + |y|] == "/month="
            && r[12 + |y|..14 + |y|] == m && r[14 + |y|..] == "/" + BlobFile
  {
    var a := "year=" + y;
    var b := "/month=" + m;
    var c := "/" + BlobFile;
    assert a[..5] == "year=" && a[5..] == y;
    assert b[..7] == "/month=" && b[7..] == m;
    var r := a + b + c;
    assert r == "year=" + y + "/month=" + m + "/" + BlobFile;
    assert r[..|a|] == a && r[|a|..|a| + |b|] == b && r[|a| + |b|..] == c;
  }

  /** The two variable fields of a blob name sit between fixed text, so equal names have equal fields. */
  lemma NameFields(y1: string, m1: string, y2: string, m2: string)
    requires |m1| == 2 && |m2| == 2
    requires "year=" + y1 + "/month=" + m1 + "/" + BlobFile == "year=" + y2 + "/month=" + m2 + "/" + BlobFile
    ensures y1 == y2 && m1 == m2
  {
    NameLayout(y1, m1);
    NameLayout(y2, m2);
  }

  /** Two timestamps share a blob exactly when they fall in the same year and month. */
  lemma BlobNamePartition(t1: Timestamp, t2: Timestamp)
    ensures BlobName(t1) == BlobName(t2) <==> t1.year == t2.year && t1.month == t2.month
  {
    if BlobName(t1) == BlobName(t2) {
      assert Pow10(2) == 100;
      PadFacts(t1.month, 2);
      PadFacts(t2.month, 2);
      NameFields(Decimal(t1.year), Pad(t1.month, 2), Decimal(t2.year), Pad(t2.month, 2));
    }
  }

  /** The line a record is written as: `<str(timestamp)>\t<text>\n`. */
  function Serialize(item: LogItem): (r: string)
    ensures IsLine(r) <==> '\n' !in item.text
  {
    var f := Format(item.timestamp);
    var r := f + "\t" + item.text + "\n";
    FormatHasNoControl(item.timestamp);
    assert r[..|r| - 1] == f + "\t" + item.text;
    r
  }

  /** Text that survives the line format: it holds neither the field separator nor a newline. */
  predicate Clean(item: LogItem)
  {
    '\t' !in item.text && '\n' !in item.text
  }

  /**
   * Reads one fallback line: the first tab-separated field must parse as a
   * timestamp and a second field must exist; the second field, with its
   * newlines removed, is the text. Anything else is dropped (`None`).
   */
  function ParseLine(line: string): (r: Option<LogItem>)
    ensures r.Some? ==> Clean(r.value)
  {
    if line == "" then None
    else
      var m := Split(line, '\t');
      match Parse(m[0])
      case None => None
      case Some(t) =>
        if |m| < 2 then None
        else
          RemoveCharKeepsAbsent(m[1], '\n', '\t');
          Some(LogItem(t, RemoveChar(m[1], '\n')))
  }

  /**
   * Which lines are kept: exactly those with a tab whose part before the
   * first tab parses as a timestamp; that timestamp is the record's. A line
   * without a tab, or with an unparsable timestamp field, is dropped.
   */
  lemma ParseLineAccepts(line: string)
    ensures ParseLine(line).Some? <==> '\t' in line && Parse(line[..IndexOf(line, '\t')]).Some?
    ensures ParseLine(line).Some? ==> ParseLine(line).value.timestamp == Parse(line[..IndexOf(line, '\t')]).value
  {
    if line != "" {
      var m := Split(line, '\t');
      assert |m| >= 2 <==> '\t' in line;
    }
  }

  /** The text of a timestamp holds only digits and the separators `-`, ` `, `:` and `.`. */
  lemma FormatHasNoControl(t: Timestamp)
    ensures '\t' !in Format(t) && '\n' !in Format(t)
  {
    var s := Format(t);
    ParseFormat(t);
    assert WellLaid(s);
    forall k | 0 <= k < |s|
      ensures s[k] != '\t' && s[k] != '\n'
    {
      if k < 4 { assert IsDigit(s[0..4][k]); }
      else if 4 < k < 7 { assert IsDigit(s[5..7][k - 5]); }
      else if 7 < k < 10 { assert IsDigit(s[8..10][k - 8]); }
      else if 10 < k < 13 { assert IsDigit(s[11..13][k - 11]); }
      else if 13 < k < 16 { assert IsDigit(s[14..16][k - 14]); }
      else if 16 < k < 19 { assert IsDigit(s[17..19][k - 17]); }
      else if 19 < k { assert IsDigit(s[20..26][k - 20]); }
    }
  }

  /** The serialized line of a record whose text has no newline is one complete line. */
  lemma SerializeIsLine(item: LogItem)
    requires '\n' !in item.text
    ensures IsLine(Serialize(item))
  {
    FormatHasNoControl(item.timestamp);
    var l := Serialize(item);
    assert l[..|l| - 1] == Format(item.timestamp) + "\t" + item.text;
  }

  /** Splitting two separator-free fields joined by the separator gives the two fields. */
  lemma SplitTwo(a: string, b: string, sep: char)
    requires sep !in a && sep !in b
    ensures Split(a + [sep] + b, sep) == [a, b]
  {
    SplitCons(a, b, sep);
  }

  /** A line made of a parseable timestamp field, a tab and a clean text reads back as that record. */
  lemma ParseLineOf(f: string, t: Timestamp, text: string)
    requires Parse(f) == Some(t) && '\t' !in f
    requires '\t' !in text && '\n' !in text
    ensures ParseLine(f + "\t" + text + "\n") == Some(LogItem(t, text))
  {
    var line := f + "\t" + text + "\n";
    SplitTwo(f, text + "\n", '\t');
    assert line == f + ['\t'] + (text + "\n");
    RemoveCharAppend(text, "\n", '\n');
    assert RemoveChar("\n", '\n') == "";
    assert RemoveChar(text + "\n", '\n') == text;
  }

  /** Fallback round trip: a clean record's line parses back to the same record. */
  lemma ParseSerialize(item: LogItem)
    requires Clean(item)
    ensures ParseLine(Serialize(item)) == Some(item)
  {
    FormatHasNoControl(item.timestamp);
    ParseFormat(item.timestamp);
    ParseLineOf(Format(item.timestamp), item.timestamp, item.text);
  }

  /** A line whose text field is followed by another tab yields only the text field. */
  lemma ParseLineCut(f: string, t: Timestamp, before: string, rest: string)
    requires Parse(f) == Some(t) && '\t' !in f
    requires '\t' !in before && '\n' !in before
    ensures ParseLine(f + "\t" + before + "\t" + rest) == Some(LogItem(t, before))
  {
    var line := f + "\t" + before + "\t" + rest;
    assert line == f + ['\t'] + (before + ['\t'] + rest);
    SplitCons(f, before + ['\t'] + rest, '\t');
    SplitCons(before, rest, '\t');
  }

  /** Regrouping the pieces of a line whose text holds a tab; it only moves the solver along on equal terms. */
  lemma Regroup(f: string, before: string, after: string)
    ensures f + "\t" + (before + "\t" + after) + "\n" == f + "\t" + before + "\t" + (after + "\n")
  {
  }

  /**
   * A tab inside the text cuts it short: only the part before the tab comes
   * back from the fallback line.
   */
  lemma TabTruncatesText(t: Timestamp, before: string, after: string)
    requires '\t' !in before && '\n' !in before
    ensures ParseLine(Serialize(LogItem(t, before + "\t" + after))) == Some(LogItem(t, before))
  {
    FormatHasNoControl(t);
    ParseFormat(t);
    ParseLineCut(Format(t), t, before, after + "\n");
    var text := before + "\t" + after;
    assert Serialize(LogItem(t, text)) == Format(t) + "\t" + text + "\n";
    Regroup(Format(t), before, after);
  }

  /**
   * A newline inside the text splits the record's line in two: reading the
   * file back gives two lines, and the first of them carries only the text
   * before the newline. The second line stands on its own.
   */
  lemma NewlineSplitsRecord(t: Timestamp, a: string, b: string)
    requires '\t' !in a && '\n' !in a && '\n' !in b
    ensures var first := Format(t) + "\t" + a + "\n";
            && ReadLines(Serialize(LogItem(t, a + "\n" + b))) == [first, b + "\n"]
            && ParseLine(first) == Some(LogItem(t, a))
  {
    var first := Format(t) + "\t" + a + "\n";
    var second := b + "\n";
    FormatHasNoControl(t);
    assert IsLine(first) by {
      var head := Format(t) + "\t" + a;
      assert '\n' !in head;
      LineOf(head);
    }
    assert IsLine(second) by { LineOf(b); }
    ReadLinesTwo(first, second);
    SerializeCut(t, a, b);
    ParseFormat(t);
    ParseLineOf(Format(t), t, a);
  }

  /** The line of a text `a \n b`, regrouped at the newline; it only moves the solver along on equal terms. */
  lemma SerializeCut(t: Timestamp, a: string, b: string)
    ensures Serialize(LogItem(t, a + "\n" + b)) == (Format(t) + "\t" + a + "\n") + (b + "\n")
  {
  }

  /** Reads every line of a fallback file, keeping the records of the lines that parse, in file order. */
  function ParseLines(lines: seq<string>): (items: seq<LogItem>)
    ensures |items| <= |lines|
    ensures forall k :: 0 <= k < |items| ==> Clean(items[k])
  {
    FilterMapAll(ParseLine, lines, Clean);
    FilterMap(ParseLine, lines)
  }

  lemma ParseLinesAppend(a: seq<string>, b: seq<string>)
    ensures ParseLines(a + b) == ParseLines(a) + ParseLines(b)
  {
    FilterMapAppend(ParseLine, a, b);
  }

  /** A malformed line is dropped on its own: the lines around it are read as if it were absent. */
  lemma CorruptLineIsolated(before: seq<string>, bad: string, after: seq<string>)
    requires ParseLine(bad).None?
    ensures ParseLines(before + [bad] + after) == ParseLines(before) + ParseLines(after)
  {
    ParseLinesAppend(before + [bad], after);
    ParseLinesAppend(before, [bad]);
    ParseLinesSingle(bad);
  }

  /** The lines a sequence of records is written as. */
  function Lines(items: seq<LogItem>): (lines: seq<string>)
    ensures |lines| == |items|
  {
    seq(|items|, k requires 0 <= k < |items| => Serialize(items[k]))
  }

  /** The serialized records of a text without newlines are complete lines. */
  lemma LinesAreLines(items: seq<LogItem>)
    requires forall k :: 0 <= k < |items| ==> '\n' !in items[k].text
    ensures forall k :: 0 <= k < |items| ==> IsLine(Lines(items)[k])
  {
    forall k | 0 <= k < |items|
      ensures IsLine(Lines(items)[k])
    {
      SerializeIsLine(items[k]);
    }
  }

  /** The file holding one record is that record's line. */
  lemma OneLineFile(item: LogItem)
    ensures Concat(Lines([item])) == Serialize(item)
  {
    assert Lines([item]) == [Serialize(item)];
    assert [Serialize(item)][1..] == [];
  }

  /** A file of serialized clean records reads back as exactly those records, in order. */
  lemma {:induction false} ReadBackLines(items: seq<LogItem>)
    requires forall k :: 0 <= k < |items| ==> Clean(items[k])
    ensures ParseLines(ReadLines(Concat(Lines(items)))) == items
  {
    LinesAreLines(items);
    ReadLinesOfLines(Lines(items));
    ParseLinesOfSerialized(items);
  }

  /** One line on its own yields its record, or nothing when it does not parse. */
  lemma ParseLinesSingle(line: string)
    ensures ParseLines([line]) == if ParseLine(line).Some? then [ParseLine(line).value] else []
  {
    FilterMapSingle(ParseLine, line);
  }

  /** The lines of clean records parse back to exactly those records. */
  lemma ParseLinesOfSerialized(items: seq<LogItem>)
    requires forall k :: 0 <= k < |items| ==> Clean(items[k])
    ensures ParseLines(Lines(items)) == items
  {
    var lines := Lines(items);
    forall k | 0 <= k < |lines|
      ensures ParseLine(lines[k]) == Some(items[k])
    {
      ParseSerialize(items[k]);
    }
    FilterMapTotal(ParseLine, lines, items);
  }
}
