/**
 * The commit-msg hook of changelog.mjs: each line of the pending commit message that opens
 * with a conventional header for a known type (`type: …` or `type(scope): …`) gets that type's
 * emoji and a space in front of it; every other line is kept as it is.
 */
module CommitMsgHook {
  import opened Wrappers
  import opened JsStrings
  import opened Lists
  import OrderedMaps
  import opened Changelog
  import opened ChangelogMjs

  // ---------------------------------------------------------------------------------------
  // The header regex `^(type1|type2|…)(\(.+\))?:\s`

  /** `\(.+\)` closes at `j`: one or more characters that are not line terminators, then `):` and white space. */
  predicate ScopeClose(r: string, j: int)
    requires 2 <= j < |r| - 2
  {
    r[0] == '(' && r[j] == ')' && r[j + 1] == ':' && IsSpace(r[j + 2])
    && forall k | 1 <= k < j :: !IsLineTerminator(r[k])
  }

  /** What may follow the type: `(\(.+\))?:\s`, with any closing parenthesis that lets the rest match. */
  predicate HeaderTail(r: string) {
    || (|r| >= 2 && r[0] == ':' && IsSpace(r[1]))
    || exists j | 2 <= j < |r| - 2 :: ScopeClose(r, j)
  }

  /** The line opens with the type `k` followed by a header tail. */
  predicate Header(line: string, k: string) {
    StartsWith(line, k) && HeaderTail(line[|k|..])
  }

  /**
   * `line.match(regex)?.[1]`: the alternation tries the keys in the map's order, so the type
   * captured is the first key whose header the line opens with.
   */
  function HeaderType(typeMap: TypeMap, line: string): (t: Option<string>)
    ensures t.None? <==> forall i :: 0 <= i < |typeMap| ==> !Header(line, typeMap[i].0)
    ensures t.Some? ==> exists i :: (0 <= i < |typeMap| && typeMap[i].0 == t.value && Header(line, t.value)
      && forall j :: 0 <= j < i ==> !Header(line, typeMap[j].0))
  {
    if |typeMap| == 0 then None
    else if Header(line, typeMap[0].0) then Some(typeMap[0].0)
    else
      var t := HeaderType(typeMap[1..], line);
      assert forall i :: 1 <= i < |typeMap| ==> typeMap[1..][i - 1] == typeMap[i];
      t
  }

  /** `typeMap[type]`, read as the empty string when it is missing (`?.` then `|| ''`). */
  function LabelOf(typeMap: TypeMap, t: string): (title: string)
    ensures OrderedMaps.Has(typeMap, t) ==> exists i :: 0 <= i < |typeMap| && typeMap[i] == (t, title)
  {
    match OrderedMaps.Get(typeMap, t)
    case Some(l) => l
    case None => ""
  }

  // ---------------------------------------------------------------------------------------
  // The emoji in front of a label

  /** The UTF-16 code units of a character: two for one outside the Basic Multilingual Plane. */
  function Units(c: char): nat {
    if c as int >= 0x10000 then 2 else 1
  }

  /** `s.length`: the UTF-16 code units of a string. */
  function UnitCount(s: string): nat {
    if s == [] then 0 else Units(s[0]) + UnitCount(s[1..])
  }

  /**
   * `s.slice(0, n)` where the cut falls between characters: the longest run of whole
   * characters at the front of `s` that fits in `n` code units.
   */
  function UnitPrefix(s: string, n: nat): (p: string)
    ensures StartsWith(s, p)
    ensures UnitCount(p) <= n
    ensures p == s || UnitCount(p) + Units(s[|p|]) > n
  {
    if s == [] || Units(s[0]) > n then []
    else
      var p := [s[0]] + UnitPrefix(s[1..], n - Units(s[0]));
      assert p[1..] == UnitPrefix(s[1..], n - Units(s[0]));
      p
  }

  /** The emoji of a label: everything before its first space. */
  function EmojiMark(title: string): (m: string)
    ensures StartsWith(title, m) && ' ' !in m
    ensures m == title || title[|m|] == ' '
  {
    if title == [] || title[0] == ' ' then []
    else
      var m := [title[0]] + EmojiMark(title[1..]);
      assert m[1..] == EmojiMark(title[1..]);
      m
  }

  /** `if (emoji && !line.startsWith(emoji)) return emoji + ' ' + line; return line`. */
  function Prefixed(lead: string, line: string): string {
    if lead != "" && !StartsWith(line, lead) then lead + " " + line else line
  }

  /** A line of the message as changelog.mjs rewrites it: the lead is the label's first two code units. */
  function RewriteLineAsWritten(typeMap: TypeMap, line: string): (r: string)
    ensures HeaderType(typeMap, line).None? ==> r == line
  {
    match HeaderType(typeMap, line)
    case None => line
    case Some(t) => Prefixed(UnitPrefix(LabelOf(typeMap, t), 2), line)
  }

  /** A line of the message with the type's whole emoji, and one space, in front of a header. */
  function RewriteLine(typeMap: TypeMap, line: string): (r: string)
    ensures HeaderType(typeMap, line).None? ==> r == line
  {
    match HeaderType(typeMap, line)
    case None => line
    case Some(t) => Prefixed(EmojiMark(LabelOf(typeMap, t)), line)
  }

  /** The message rewritten: split at `\r?\n`, each line rewritten, joined with `\n`. */
  function RewriteMessage(typeMap: TypeMap, msg: string): (r: string)
    ensures '\n' !in msg ==> r == RewriteLine(typeMap, msg)
  {
    Join(Map(SplitLines(msg), (line: string) => RewriteLine(typeMap, line)), "\n")
  }

  /** The message as the hook writes it (changelog.mjs lines 350-361), each line with the as-written lead. */
  function RewriteMessageAsWritten(typeMap: TypeMap, msg: string): (r: string)
    ensures '\n' !in msg ==> r == RewriteLineAsWritten(typeMap, msg)
  {
    Join(Map(SplitLines(msg), (line: string) => RewriteLineAsWritten(typeMap, line)), "\n")
  }

  // ---------------------------------------------------------------------------------------
  // Properties

  /** A line holds no `\n` and no `\r`. */
  predicate SingleLine(line: string) {
    '\n' !in line && NoCR(line)
  }

  /** A label holds no control character, and so no line break. */
  predicate Printable(title: string) {
    forall k :: 0 <= k < |title| ==> title[k] >= ' '
  }

  /**
   * Every type is a word and every label opens with an emoji: no label starts with the letter
   * a type starts with, and no label starts with a space.
   */
  predicate WellMarked(typeMap: TypeMap) {
    && (forall i :: 0 <= i < |typeMap| ==>
      typeMap[i].0 != "" && typeMap[i].1 != "" && typeMap[i].1[0] != ' ' && Printable(typeMap[i].1))
    && (forall i, j :: 0 <= i < |typeMap| && 0 <= j < |typeMap| ==> typeMap[i].0[0] != typeMap[j].1[0])
  }

  /** No header line starts with any emoji of the map. */
  lemma HeaderAvoidsMarks(typeMap: TypeMap, line: string, t: string)
    requires WellMarked(typeMap) && HeaderType(typeMap, line) == Some(t)
    ensures var title := LabelOf(typeMap, t);
      title != "" && EmojiMark(title) != "" && line[0] != title[0] && !StartsWith(line, EmojiMark(title))
  {
    var i :| 0 <= i < |typeMap| && typeMap[i].0 == t && Header(line, t);
    assert OrderedMaps.Has(typeMap, t) by {
      assert OrderedMaps.Keys(typeMap)[i] == t;
    }
    var title := LabelOf(typeMap, t);
    var j :| 0 <= j < |typeMap| && typeMap[j] == (t, title);
    assert t != "" && title != "" && title[0] != ' ';
    assert t[0] != title[0];
    assert line[0] == t[0] by {
      assert line[..|t|] == t;
    }
    var m := EmojiMark(title);
    assert m[0] == title[0];
  }

  /** The `startsWith` guard never holds back a header line: each one gets its emoji. */
  lemma HeaderLinePrefixed(typeMap: TypeMap, line: string)
    requires WellMarked(typeMap)
    ensures HeaderType(typeMap, line).Some? ==>
      RewriteLine(typeMap, line) == EmojiMark(LabelOf(typeMap, HeaderType(typeMap, line).value)) + " " + line
  {
    if HeaderType(typeMap, line).Some? {
      HeaderAvoidsMarks(typeMap, line, HeaderType(typeMap, line).value);
    }
  }

  /**
   * As written, the lead of a header line's label is not empty and opens with the label's
   * first character, so the line does not start with it.
   */
  lemma HeaderAvoidsLeads(typeMap: TypeMap, line: string, t: string)
    requires WellMarked(typeMap) && HeaderType(typeMap, line) == Some(t)
    ensures var title := LabelOf(typeMap, t);
      var lead := UnitPrefix(title, 2);
      lead != "" && lead[0] == title[0] && !StartsWith(line, lead)
      && RewriteLineAsWritten(typeMap, line) == lead + " " + line
  {
    HeaderAvoidsMarks(typeMap, line, t);
    var title := LabelOf(typeMap, t);
    var lead := UnitPrefix(title, 2);
    assert lead == [title[0]] + UnitPrefix(title[1..], 2 - Units(title[0]));
  }

  /** A rewritten line opens with a label's first character, so it is no header line. */
  lemma RewrittenHasNoHeader(typeMap: TypeMap, line: string, t: string, r: string)
    requires WellMarked(typeMap) && HeaderType(typeMap, line) == Some(t)
    requires r != "" && r[0] == LabelOf(typeMap, t)[0]
    ensures HeaderType(typeMap, r).None?
  {
    HeaderAvoidsMarks(typeMap, line, t);
    var title := LabelOf(typeMap, t);
    var i :| 0 <= i < |typeMap| && typeMap[i].0 == t;
    var j :| 0 <= j < |typeMap| && typeMap[j] == (t, title) by {
      assert OrderedMaps.Keys(typeMap)[i] == t;
    }
    forall k | 0 <= k < |typeMap|
      ensures !Header(r, typeMap[k].0)
    {
      assert typeMap[k].0[0] != typeMap[j].1[0];
    }
  }

  /**
   * A rewritten line has no header any more, and a second rewrite leaves it as it is; this
   * holds of the hook as written and with the whole emoji.
   */
  lemma RewriteLineIdempotent(typeMap: TypeMap, line: string)
    requires WellMarked(typeMap)
    ensures RewriteLine(typeMap, RewriteLine(typeMap, line)) == RewriteLine(typeMap, line)
    ensures RewriteLineAsWritten(typeMap, RewriteLineAsWritten(typeMap, line)) == RewriteLineAsWritten(typeMap, line)
  {
    if HeaderType(typeMap, line).Some? {
      var t := HeaderType(typeMap, line).value;
      HeaderAvoidsLeads(typeMap, line, t);
      RewrittenHasNoHeader(typeMap, line, t, RewriteLineAsWritten(typeMap, line));
      HeaderLinePrefixed(typeMap, line);
      HeaderAvoidsMarks(typeMap, line, t);
      var title := LabelOf(typeMap, t);
      assert EmojiMark(title)[0] == title[0];
      RewrittenHasNoHeader(typeMap, line, t, RewriteLine(typeMap, line));
    }
  }

  /** A rewritten line holds no `\n` and no `\r` when the line and the labels hold none. */
  lemma RewrittenSingleLine(typeMap: TypeMap, line: string)
    requires WellMarked(typeMap) && SingleLine(line)
    ensures SingleLine(RewriteLine(typeMap, line))
    ensures SingleLine(RewriteLineAsWritten(typeMap, line))
  {
    if HeaderType(typeMap, line).Some? {
      var t := HeaderType(typeMap, line).value;
      var i :| 0 <= i < |typeMap| && typeMap[i].0 == t;
      assert OrderedMaps.Keys(typeMap)[i] == t;
      var title := LabelOf(typeMap, t);
      var j :| 0 <= j < |typeMap| && typeMap[j] == (t, title);
      assert Printable(title);
      HeaderLinePrefixed(typeMap, line);
      MarkSingleLine(title);
      SingleLineAppend(EmojiMark(title), " ");
      SingleLineAppend(EmojiMark(title) + " ", line);
      HeaderAvoidsLeads(typeMap, line, t);
      var lead := UnitPrefix(title, 2);
      PrefixSingleLine(title, lead);
      SingleLineAppend(lead, " ");
      SingleLineAppend(lead + " ", line);
    }
  }

  /** The front of a printable label holds no line break. */
  lemma PrefixSingleLine(title: string, p: string)
    requires Printable(title) && StartsWith(title, p)
    ensures SingleLine(p)
  {
    assert forall k :: 0 <= k < |p| ==> p[k] == title[k];
  }

  /** A label's emoji holds no line break. */
  lemma MarkSingleLine(title: string)
    requires Printable(title)
    ensures SingleLine(EmojiMark(title))
  {
    var m := EmojiMark(title);
    assert m == title[..|m|];
    assert forall k :: 0 <= k < |m| ==> m[k] == title[k];
  }

  /** Two texts without line breaks make one. */
  lemma SingleLineAppend(a: string, b: string)
    requires SingleLine(a) && SingleLine(b)
    ensures SingleLine(a + b)
  {
    forall k | 0 <= k < |a + b|
      ensures (a + b)[k] != '\r'
    {
      if k >= |a| {
        assert (a + b)[k] == b[k - |a|];
      }
    }
  }

  /**
   * Splitting the rewritten message gives the rewritten lines: one line out for each line in,
   * in the same order.
   */
  lemma RewriteKeepsLines(typeMap: TypeMap, msg: string)
    requires WellMarked(typeMap) && NoCR(msg)
    ensures SplitLines(RewriteMessage(typeMap, msg)) == Map(SplitLines(msg), (line: string) => RewriteLine(typeMap, line))
    ensures SplitLines(RewriteMessageAsWritten(typeMap, msg))
      == Map(SplitLines(msg), (line: string) => RewriteLineAsWritten(typeMap, line))
  {
    var lines := SplitLines(msg);
    var out := Map(lines, (line: string) => RewriteLine(typeMap, line));
    var outAsWritten := Map(lines, (line: string) => RewriteLineAsWritten(typeMap, line));
    SplitLinesPlain(msg);
    forall i | 0 <= i < |lines|
      ensures SingleLine(out[i]) && NoTrailingCR(out[i])
      ensures SingleLine(outAsWritten[i]) && NoTrailingCR(outAsWritten[i])
    {
      RewrittenSingleLine(typeMap, lines[i]);
    }
    SplitLinesJoin(out);
    SplitLinesJoin(outAsWritten);
  }

  /** A message without a header line, and without `\r`, is written back unchanged. */
  lemma NoHeaderUnchanged(typeMap: TypeMap, msg: string)
    requires NoCR(msg)
    requires forall i :: 0 <= i < |SplitLines(msg)| ==> HeaderType(typeMap, SplitLines(msg)[i]).None?
    ensures RewriteMessage(typeMap, msg) == msg
    ensures RewriteMessageAsWritten(typeMap, msg) == msg
  {
    var lines := SplitLines(msg);
    assert Map(lines, (line: string) => RewriteLine(typeMap, line)) == lines;
    assert Map(lines, (line: string) => RewriteLineAsWritten(typeMap, line)) == lines;
    JoinSplitLines(msg);
  }

  /** Running the hook a second time changes nothing, as written and with the whole emoji. */
  lemma RewriteMessageIdempotent(typeMap: TypeMap, msg: string)
    requires WellMarked(typeMap) && NoCR(msg)
    ensures RewriteMessage(typeMap, RewriteMessage(typeMap, msg)) == RewriteMessage(typeMap, msg)
    ensures RewriteMessageAsWritten(typeMap, RewriteMessageAsWritten(typeMap, msg)) == RewriteMessageAsWritten(typeMap, msg)
  {
    var lines := SplitLines(msg);
    RewriteKeepsLines(typeMap, msg);
    var out := Map(lines, (line: string) => RewriteLine(typeMap, line));
    forall i | 0 <= i < |out|
      ensures RewriteLine(typeMap, out[i]) == out[i]
    {
      RewriteLineIdempotent(typeMap, lines[i]);
    }
    assert Map(out, (line: string) => RewriteLine(typeMap, line)) == out;
    var outAsWritten := Map(lines, (line: string) => RewriteLineAsWritten(typeMap, line));
    forall i | 0 <= i < |outAsWritten|
      ensures RewriteLineAsWritten(typeMap, outAsWritten[i]) == outAsWritten[i]
    {
      RewriteLineIdempotent(typeMap, lines[i]);
    }
    assert Map(outAsWritten, (line: string) => RewriteLineAsWritten(typeMap, line)) == outAsWritten;
  }

  /** The types of changelog.mjs are words and each of its labels opens with an emoji. */
  lemma MjsWellMarked()
    ensures WellMarked(TypeMapMjs)
  {
    MjsTypesAreWords();
    MjsLabelsOpenWithEmoji();
    MjsLabelsPrintable0();
    MjsLabelsPrintable4();
    MjsLabelsPrintable8();
    MjsLabelsPrintable12();
  }

  // The facts MjsWellMarked is made of, a few labels at a time.

  lemma MjsTypesAreWords()
    ensures forall i :: 0 <= i < |TypeMapMjs| ==> TypeMapMjs[i].0 != "" && 'a' <= TypeMapMjs[i].0[0] <= 'z'
  {
  }

  lemma MjsLabelsOpenWithEmoji()
    ensures forall i :: 0 <= i < |TypeMapMjs| ==> TypeMapMjs[i].1 != "" && TypeMapMjs[i].1[0] as int >= 0x2000
  {
  }

  lemma MjsLabelsPrintable0()
    ensures forall i :: 0 <= i < 4 ==> Printable(TypeMapMjs[i].1)
  {
  }

  lemma MjsLabelsPrintable4()
    ensures forall i :: 4 <= i < 8 ==> Printable(TypeMapMjs[i].1)
  {
  }

  lemma MjsLabelsPrintable8()
    ensures forall i :: 8 <= i < 12 ==> Printable(TypeMapMjs[i].1)
  {
  }

  lemma MjsLabelsPrintable12()
    ensures forall i :: 12 <= i < |TypeMapMjs| ==> Printable(TypeMapMjs[i].1)
  {
  }

  /**
   * With the types of changelog.mjs, a second run of the hook over its own output changes
   * nothing, as written and with the whole emoji.
   */
  lemma MjsRewriteIdempotent(msg: string)
    requires NoCR(msg)
    ensures RewriteMessage(TypeMapMjs, RewriteMessage(TypeMapMjs, msg)) == RewriteMessage(TypeMapMjs, msg)
    ensures RewriteMessageAsWritten(TypeMapMjs, RewriteMessageAsWritten(TypeMapMjs, msg))
      == RewriteMessageAsWritten(TypeMapMjs, msg)
  {
    MjsWellMarked();
    RewriteMessageIdempotent(TypeMapMjs, msg);
  }

  // ---------------------------------------------------------------------------------------
  // The first two code units are not the emoji

  /**
   * As written, an emoji of one code unit followed by the label's space gives a lead that ends
   * in that space, and the line gets two spaces after the emoji instead of one.
   */
  lemma NarrowEmojiDoubleSpace(typeMap: TypeMap, line: string, t: string)
    requires HeaderType(typeMap, line) == Some(t)
    requires var title := LabelOf(typeMap, t);
      |title| >= 2 && Units(title[0]) == 1 && title[0] != ' ' && title[1] == ' ' && line != "" && line[0] != title[0]
    ensures var title := LabelOf(typeMap, t);
      RewriteLineAsWritten(typeMap, line) == title[..2] + " " + line && RewriteLine(typeMap, line) == title[..1] + " " + line
  {
    var title := LabelOf(typeMap, t);
    NarrowLeads(title);
    assert !StartsWith(line, title[..2]) && !StartsWith(line, title[..1]) by {
      assert title[..2][0] == title[..1][0] == title[0];
    }
  }

  /** The leads of a label that opens with a one-unit emoji and a space: the emoji and the space, or the emoji alone. */
  lemma NarrowLeads(title: string)
    requires |title| >= 2 && Units(title[0]) == 1 && title[0] != ' ' && title[1] == ' '
    ensures UnitPrefix(title, 2) == title[..2] && EmojiMark(title) == title[..1]
  {
    var rest := title[1..];
    assert rest[0] == ' ';
    assert EmojiMark(rest) == [];
    assert UnitPrefix(rest[1..], 0) == [];
    assert UnitPrefix(rest, 1) == [rest[0]] + UnitPrefix(rest[1..], 0);
    assert UnitPrefix(title, 2) == [title[0]] + UnitPrefix(rest, 2 - Units(title[0]));
    assert title[..2] == [title[0], rest[0]];
  }

  /**
   * As written, an emoji outside the Basic Multilingual Plane fills both code units, so the
   * variation selector after it is lost.
   */
  lemma WideEmojiLosesSelector(typeMap: TypeMap, line: string, t: string)
    requires HeaderType(typeMap, line) == Some(t)
    requires var title := LabelOf(typeMap, t);
      |title| >= 3 && Units(title[0]) == 2 && title[1] == '\U{FE0F}' && title[2] == ' ' && line != "" && line[0] != title[0]
    ensures var title := LabelOf(typeMap, t);
      RewriteLineAsWritten(typeMap, line) == title[..1] + " " + line && RewriteLine(typeMap, line) == title[..2] + " " + line
  {
    var title := LabelOf(typeMap, t);
    WideLeads(title);
    assert !StartsWith(line, title[..2]) && !StartsWith(line, title[..1]) by {
      assert title[..2][0] == title[..1][0] == title[0];
    }
  }

  /** The leads of a label that opens with a two-unit emoji, its variation selector and a space. */
  lemma WideLeads(title: string)
    requires |title| >= 3 && Units(title[0]) == 2 && title[1] == '\U{FE0F}' && title[2] == ' '
    ensures UnitPrefix(title, 2) == title[..1] && EmojiMark(title) == title[..2]
  {
    var rest := title[1..];
    assert UnitPrefix(rest, 0) == [];
    assert rest[1..][0] == ' ';
    assert EmojiMark(rest[1..]) == [];
    assert EmojiMark(rest) == [rest[0]] + EmojiMark(rest[1..]);
  }

  /** A `feat` header gets `✨` and two spaces as written, and `✨` and one space with the whole emoji. */
  lemma FeatDoubleSpace(line: string)
    requires Header(line, "feat")
    ensures RewriteLineAsWritten(TypeMapMjs, line) == "✨  " + line
    ensures RewriteLine(TypeMapMjs, line) == "✨ " + line
  {
    FeatHeader(line);
    NarrowEmojiDoubleSpace(TypeMapMjs, line, "feat");
    assert "✨ Features"[..2] + " " == "✨  " && "✨ Features"[..1] + " " == "✨ ";
  }

  lemma FeatHeader(line: string)
    requires Header(line, "feat")
    ensures line[0] == 'f' && HeaderType(TypeMapMjs, line) == Some("feat") && LabelOf(TypeMapMjs, "feat") == "✨ Features"
  {
    assert line[..4] == "feat";
  }

  /**
   * The `build` label's first two code units are `🏗` alone: its variation selector is lost,
   * where the whole emoji is `🏗️`.
   */
  lemma BuildLosesSelector()
    ensures TypeMapMjs[9] == ("build", "🏗️ Build System")
    ensures UnitPrefix(TypeMapMjs[9].1, 2) == "🏗" && EmojiMark(TypeMapMjs[9].1) == "🏗️"
  {
    var title := "🏗️ Build System";
    WideLeads(title);
    assert title[..1] == "🏗" && title[..2] == "🏗️";
  }
}
