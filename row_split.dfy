/**
 * The field splitter of `CSVParser.parse`: `Pattern.split` with the regex
 * `,(?=([^"]*"[^"]*")*(?![^"]*"))`. The lookahead accepts a comma exactly when the rest of
 * the line after it holds an even number of `"` characters, so a comma between an opening and a
 * closing quote stays inside its field. Quotes are kept and fields are not trimmed.
 */
module RowSplit {

  /** Number of `"` characters in `s`. */
  function QuoteCount(s: string): nat {
    if s == [] then 0 else (if s[0] == '"' then 1 else 0) + QuoteCount(s[1..])
  }

  /** The regex matches the comma at position `i` of `line`. */
  predicate IsSeparator(line: string, i: int) {
    0 <= i < |line| && line[i] == ',' && QuoteCount(line[i + 1..]) % 2 == 0
  }

  /** The regex matches no comma in `line[lo..hi]`. */
  predicate NoSeparatorIn(line: string, lo: int, hi: int) {
    forall j :: lo <= j < hi ==> !IsSeparator(line, j)
  }

  /** The next match of the regex at or after `from`, as `Matcher.find` reports it, or `|line|`. */
  function NextSeparator(line: string, from: nat): (k: nat)
    requires from <= |line|
    ensures from <= k <= |line|
    ensures k < |line| ==> IsSeparator(line, k)
    decreases |line| - from
  {
    if from == |line| || IsSeparator(line, from) then from else NextSeparator(line, from + 1)
  }

  /** No match lies between `from` and the one `NextSeparator` reports. */
  lemma {:induction false} NextSeparatorIsFirst(line: string, from: nat)
    requires from <= |line|
    ensures NoSeparatorIn(line, from, NextSeparator(line, from))
    decreases |line| - from
  {
    if from < |line| && !IsSeparator(line, from) {
      NextSeparatorIsFirst(line, from + 1);
    }
  }

  /** The text from `from` cut at every match, before `Pattern.split` drops trailing empty strings. */
  function Segments(line: string, from: nat): (segs: seq<string>)
    requires from <= |line|
    ensures |segs| >= 1
    decreases |line| - from
  {
    var k := NextSeparator(line, from);
    if k == |line| then [line[from..]] else [line[from..k]] + Segments(line, k + 1)
  }

  /** `fields` without its trailing empty strings. */
  function DropTrailingEmpty(fields: seq<string>): (r: seq<string>)
    ensures |r| <= |fields|
  {
    if fields == [] || fields[|fields| - 1] != "" then fields
    else DropTrailingEmpty(fields[..|fields| - 1])
  }

  /** `DropTrailingEmpty` keeps a prefix, removes only empty strings, and leaves no empty string last. */
  lemma {:induction false} DropTrailingEmptyKeepsPrefix(fields: seq<string>)
    ensures var r := DropTrailingEmpty(fields);
      && r <= fields
      && (forall i :: |r| <= i < |fields| ==> fields[i] == "")
      && (r == [] || r[|r| - 1] != "")
  {
    if fields != [] && fields[|fields| - 1] == "" {
      DropTrailingEmptyKeepsPrefix(fields[..|fields| - 1]);
    }
  }

  /**
   * `Arrays.asList(regexSplitCSVRow.split(line))`. A line with no match is returned whole (so the
   * empty line gives one empty field); otherwise trailing empty fields are removed (so `","` gives
   * no field at all).
   */
  function SplitRow(line: string): seq<string> {
    var raw := Segments(line, 0);
    if |raw| == 1 then raw else DropTrailingEmpty(raw)
  }

  /** Fields joined back with commas. */
  function Join(fields: seq<string>): string {
    if |fields| == 0 then ""
    else if |fields| == 1 then fields[0]
    else fields[0] + "," + Join(fields[1..])
  }

  /** Positions, in `Join(fields)` shifted by `base`, of the commas that `Join` inserts. */
  function JoinCommas(fields: seq<string>, base: int): set<int>
  {
    if |fields| <= 1 then {}
    else {base + |fields[0]|} + JoinCommas(fields[1..], base + |fields[0]| + 1)
  }

  /** Cutting at the separators loses nothing: the segments are the exact substrings between them. */
  lemma {:induction false} JoinSegments(line: string, from: nat)
    requires from <= |line|
    ensures Join(Segments(line, from)) == line[from..]
    decreases |line| - from
  {
    var k := NextSeparator(line, from);
    if k < |line| {
      JoinSegments(line, k + 1);
      assert line[from..] == line[from..k] + "," + line[k + 1..];
    }
  }

  lemma {:induction false} JoinCommasAbove(fields: seq<string>, base: int)
    ensures forall i :: i in JoinCommas(fields, base) ==> base <= i
  {
    if |fields| > 1 {
      JoinCommasAbove(fields[1..], base + |fields[0]| + 1);
    }
  }

  /** The cuts fall exactly at the separators: at every separating comma and nowhere else. */
  lemma {:induction false} SegmentCommasAreSeparators(line: string, from: nat)
    requires from <= |line|
    ensures forall i :: i in JoinCommas(Segments(line, from), from) <==> from <= i && IsSeparator(line, i)
    decreases |line| - from
  {
    var k := NextSeparator(line, from);
    var segs := Segments(line, from);
    if k < |line| {
      var rest := Segments(line, k + 1);
      assert segs == [line[from..k]] + rest;
      assert segs[0] == line[from..k] && segs[1..] == rest;
      assert JoinCommas(segs, from) == {k} + JoinCommas(rest, k + 1);
      forall i
        ensures i in JoinCommas(segs, from) <==> from <= i && IsSeparator(line, i)
      {
        if i < k {
          NextSeparatorIsFirst(line, from);
          JoinCommasAbove(rest, k + 1);
        } else if i > k {
          SegmentCommasAreSeparators(line, k + 1);
        }
      }
    } else {
      NextSeparatorIsFirst(line, from);
      assert segs == [line[from..]];
      assert JoinCommas(segs, from) == {};
    }
  }

  /**
   * What `SplitRow` returns: the pieces of the line between separating commas, in order, minus
   * every trailing empty one when there is at least one separator. Joining the pieces gives the
   * line back, and a comma of the line is a cut exactly when an even number of quotes follow it.
   */
  lemma SplitRowPieces(line: string)
    ensures var raw := Segments(line, 0);
      && Join(raw) == line
      && (forall i :: i in JoinCommas(raw, 0) <==> IsSeparator(line, i))
      && SplitRow(line) <= raw
      && (forall i :: |SplitRow(line)| <= i < |raw| ==> raw[i] == "")
      && (|raw| > 1 ==> SplitRow(line) == [] || SplitRow(line)[|SplitRow(line)| - 1] != "")
      && (|raw| == 1 <==> SplitRow(line) == [line] && forall i :: !IsSeparator(line, i))
  {
    JoinSegments(line, 0);
    SegmentCommasAreSeparators(line, 0);
    var raw := Segments(line, 0);
    DropTrailingEmptyKeepsPrefix(raw);
    if |raw| == 1 {
      assert JoinCommas(raw, 0) == {};
    } else {
      assert 0 + |raw[0]| in JoinCommas(raw, 0);
      assert IsSeparator(line, |raw[0]|);
    }
  }

  lemma {:induction false} QuoteCountAppend(a: string, b: string)
    ensures QuoteCount(a + b) == QuoteCount(a) + QuoteCount(b)
  {
    if a == [] {
      assert a + b == b;
    } else {
      assert (a + b)[1..] == a[1..] + b;
      QuoteCountAppend(a[1..], b);
    }
  }

  /** Two counts with an even sum are both even or both odd. */
  lemma SameParity(a: nat, b: nat)
    requires (a + b) % 2 == 0
    ensures a % 2 == 0 <==> b % 2 == 0
  {
  }

  /**
   * On a line with balanced quotes, a comma separates fields exactly when an even number of quotes
   * precede it, that is, when it is outside every quoted span.
   */
  lemma SeparatorOutsideQuotes(line: string, i: nat)
    requires QuoteCount(line) % 2 == 0
    requires i < |line| && line[i] == ','
    ensures IsSeparator(line, i) <==> QuoteCount(line[..i]) % 2 == 0
  {
    var upTo := line[..i + 1];
    assert upTo + line[i + 1..] == line;
    QuoteCountAppend(upTo, line[i + 1..]);
    assert upTo == line[..i] + [','];
    QuoteCountAppend(line[..i], [',']);
    SameParity(QuoteCount(line[..i]), QuoteCount(line[i + 1..]));
  }

  predicate NoQuotes(s: string) {
    forall i :: 0 <= i < |s| ==> s[i] != '"'
  }

  lemma {:induction false} NoQuotesCountZero(s: string)
    requires NoQuotes(s)
    ensures QuoteCount(s) == 0
  {
    if s != [] {
      NoQuotesCountZero(s[1..]);
    }
  }

  /** Without any quote in the line, every comma separates two fields. */
  lemma UnquotedCommasSeparate(line: string, i: nat)
    requires NoQuotes(line)
    requires i < |line| && line[i] == ','
    ensures IsSeparator(line, i)
  {
    NoQuotesCountZero(line[i + 1..]);
  }

  /** `NextSeparator` is determined by its contract. */
  lemma SegmentsStep(line: string, from: nat, k: nat)
    requires from <= k < |line| && IsSeparator(line, k)
    requires NoSeparatorIn(line, from, k)
    ensures Segments(line, from) == [line[from..k]] + Segments(line, k + 1)
  {
    NextSeparatorIsFirst(line, from);
    assert NextSeparator(line, from) == k;
  }

  lemma SegmentsLast(line: string, from: nat)
    requires from <= |line|
    requires NoSeparatorIn(line, from, |line|)
    ensures Segments(line, from) == [line[from..]]
  {
    NextSeparatorIsFirst(line, from);
    assert NextSeparator(line, from) == |line|;
  }

  predicate NoCommasOrQuotes(s: string) {
    forall i :: 0 <= i < |s| ==> s[i] != ',' && s[i] != '"'
  }

  /** Quotes after a comma that sits inside the quoted span `"y"` of `x,"y",z`: only the closing one. */
  lemma {:induction false} QuotesAfterInnerComma(t: string, z: string)
    requires NoQuotes(t) && NoQuotes(z)
    ensures QuoteCount(t + "\"," + z) == 1
  {
    NoQuotesCountZero(t);
    NoQuotesCountZero(z);
    QuoteCountAppend(t + "\",", z);
    QuoteCountAppend(t, "\",");
  }

  /** Quotes after the comma that opens the quoted span: the opening and the closing one. */
  lemma {:induction false} QuotesAfterOpeningComma(y: string, z: string)
    requires NoQuotes(y) && NoQuotes(z)
    ensures QuoteCount("\"" + y + "\"," + z) == 2
  {
    QuotesAfterInnerComma(y, z);
    assert "\"" + y + "\"," + z == "\"" + (y + "\"," + z);
  }

  /** Which commas of `x,"y",z` the regex matches: the two around the quoted span and no other. */
  lemma QuotedLineSeparators(x: string, y: string, z: string)
    requires NoCommasOrQuotes(x) && NoQuotes(y) && NoCommasOrQuotes(z)
    ensures var line := x + ",\"" + y + "\"," + z;
      && IsSeparator(line, |x|)
      && IsSeparator(line, |x| + |y| + 3)
      && NoSeparatorIn(line, 0, |x|)
      && NoSeparatorIn(line, |x| + 1, |x| + |y| + 3)
      && NoSeparatorIn(line, |x| + |y| + 4, |line|)
  {
    var line := x + ",\"" + y + "\"," + z;
    var p1, p2 := |x|, |x| + |y| + 3;
    assert line[p1 + 1..] == "\"" + y + "\"," + z;
    QuotesAfterOpeningComma(y, z);
    assert line[p2 + 1..] == z;
    NoQuotesCountZero(z);
    forall j | 0 <= j < p1
      ensures !IsSeparator(line, j)
    {
      assert line[j] == x[j];
    }
    forall j | p1 < j < p2
      ensures !IsSeparator(line, j)
    {
      if p1 + 2 <= j < p2 - 1 {
        var t := y[j - p1 - 1..];
        assert line[j + 1..] == t + "\"," + z;
        QuotesAfterInnerComma(t, z);
      }
    }
    forall j | p2 < j < |line|
      ensures !IsSeparator(line, j)
    {
      assert line[j] == z[j - p2 - 1];
    }
  }

  /** The three raw pieces of `x,"y",z`, before trailing empty strings are dropped. */
  lemma QuotedLineSegments(x: string, y: string, z: string)
    requires NoCommasOrQuotes(x) && NoQuotes(y) && NoCommasOrQuotes(z)
    ensures Segments(x + ",\"" + y + "\"," + z, 0) == [x, "\"" + y + "\"", z]
  {
    var line := x + ",\"" + y + "\"," + z;
    var p1, p2 := |x|, |x| + |y| + 3;
    QuotedLineSeparators(x, y, z);
    SegmentsLast(line, p2 + 1);
    SegmentsStep(line, p1 + 1, p2);
    SegmentsStep(line, 0, p1);
    QuotedLineSlices(x, y, z);
  }

  /** The text of `x,"y",z` around its two separating commas. */
  lemma QuotedLineSlices(x: string, y: string, z: string)
    ensures var line := x + ",\"" + y + "\"," + z;
      && line[..|x|] == x
      && line[|x| + 1..|x| + |y| + 3] == "\"" + y + "\""
      && line[|x| + |y| + 4..] == z
  {
  }

  /**
   * A double-quoted field keeps its commas and its quotes: with `x` and `z` free of commas and
   * quotes and `y` free of quotes, `x,"y",z` splits into `x`, `"y"` and `z` (the last one dropped
   * when empty).
   */
  lemma QuotedFieldKeepsCommas(x: string, y: string, z: string)
    requires NoCommasOrQuotes(x) && NoQuotes(y) && NoCommasOrQuotes(z)
    ensures SplitRow(x + ",\"" + y + "\"," + z) == [x, "\"" + y + "\""] + (if z == "" then [] else [z])
  {
    var q := "\"" + y + "\"";
    QuotedLineSegments(x, y, z);
    if z == "" {
      assert DropTrailingEmpty([x, q, z]) == DropTrailingEmpty([x, q]);
      assert q[0] == '"';
    }
  }

  /** Joining fields free of quotes gives a line free of quotes. */
  lemma {:induction false} JoinNoQuotes(fields: seq<string>)
    requires forall i :: 0 <= i < |fields| ==> NoCommasOrQuotes(fields[i])
    ensures NoQuotes(Join(fields))
  {
    if |fields| > 1 {
      JoinNoQuotes(fields[1..]);
      var rest := Join(fields[1..]);
      var line := Join(fields);
      assert line == fields[0] + "," + rest;
      forall j | 0 <= j < |line|
        ensures line[j] != '"'
      {
        if j < |fields[0]| {
          assert line[j] == fields[0][j];
        } else if j > |fields[0]| {
          assert line[j] == rest[j - |fields[0]| - 1];
        }
      }
    }
  }

  /** A comma-free stretch of the line holds no separator. */
  lemma CommaFreeNoSeparator(line: string, lo: nat, hi: nat, field: string)
    requires lo <= hi <= |line| && line[lo..hi] == field && NoCommasOrQuotes(field)
    ensures NoSeparatorIn(line, lo, hi)
  {
    forall j | lo <= j < hi
      ensures !IsSeparator(line, j)
    {
      assert line[j] == field[j - lo];
    }
  }

  /** Where `fields` are joined into the line at `from`: the first field, its comma, then the others joined. */
  lemma JoinSlices(line: string, from: nat, fields: seq<string>)
    requires from <= |line| && |fields| > 1 && line[from..] == Join(fields)
    ensures var k := from + |fields[0]|;
      && k < |line| && line[from..k] == fields[0] && line[k] == ',' && line[k + 1..] == Join(fields[1..])
  {
    var k := from + |fields[0]|;
    var rest := Join(fields[1..]);
    assert line[from..] == fields[0] + "," + rest;
    assert line[from..][..|fields[0]|] == fields[0];
    assert line[from..][|fields[0]| + 1..] == rest;
  }

  /** On a line without quotes, the pieces after `from` are the comma-free fields that were joined there. */
  lemma {:induction false} SegmentsOfUnquotedJoin(line: string, from: nat, fields: seq<string>)
    requires from <= |line| && NoQuotes(line)
    requires |fields| >= 1 && forall i :: 0 <= i < |fields| ==> NoCommasOrQuotes(fields[i])
    requires line[from..] == Join(fields)
    ensures Segments(line, from) == fields
    decreases |fields|
  {
    var k := from + |fields[0]|;
    if |fields| == 1 {
      CommaFreeNoSeparator(line, from, |line|, fields[0]);
      SegmentsLast(line, from);
    } else {
      JoinSlices(line, from, fields);
      UnquotedCommasSeparate(line, k);
      CommaFreeNoSeparator(line, from, k, fields[0]);
      SegmentsStep(line, from, k);
      SegmentsOfUnquotedJoin(line, k + 1, fields[1..]);
    }
  }

  /**
   * Splitting undoes joining for fields without commas or quotes, provided the last field is not
   * empty (an empty last field is dropped) unless it is the only one.
   */
  lemma SplitJoinRoundTrip(fields: seq<string>)
    requires |fields| >= 1 && forall i :: 0 <= i < |fields| ==> NoCommasOrQuotes(fields[i])
    requires |fields| == 1 || fields[|fields| - 1] != ""
    ensures SplitRow(Join(fields)) == fields
  {
    var line := Join(fields);
    JoinNoQuotes(fields);
    assert line[0..] == line;
    SegmentsOfUnquotedJoin(line, 0, fields);
  }

  /** The quoting example: `a,"b,c",d` gives three fields and the quotes stay in the middle one. */
  lemma QuotedCommaExample(line: string)
    requires line == "a,\"b,c\",d"
    ensures SplitRow(line) == ["a", "\"b,c\"", "d"]
  {
    var x, y, z := "a", "b,c", "d";
    assert NoCommasOrQuotes(x) && NoQuotes(y) && NoCommasOrQuotes(z);
    QuotedFieldKeepsCommas(x, y, z);
    assert x + ",\"" + y + "\"," + z == line;
    assert "\"" + y + "\"" == "\"b,c\"";
    assert z != "";
  }

  /** Trailing empty fields are dropped; a line that is only separators has no field at all. */
  lemma SplitRowEdgeExamples()
    ensures SplitRow("") == [""]
    ensures SplitRow(",") == []
  {
    assert QuoteCount(","[1..]) == 0;
    assert NextSeparator(",", 0) == 0;
    assert Segments(",", 0) == ["", ""];
  }
}
