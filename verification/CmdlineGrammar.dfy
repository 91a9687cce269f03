/** What the command line parser accepts (cmdline/parser.go): exactly the lines that are written as
    flags and pairs. */
module CmdlineGrammar {
  import opened Bytes
  import opened Cmdline

  // ---------- The start of a line ----------

  /** An item that is not complete: a key, a value, or a value in the middle of a quoted part. */
  datatype Part =
    | AtKey(key: string)
    | AtValue(key: string, segments: seq<Segment>)
    | AtQuotes(key: string, segments: seq<Segment>, chars: seq<Quotable>)
    | AtEscape(key: string, segments: seq<Segment>, chars: seq<Quotable>)

  /** The start of a line: blanks, items each with a run of blanks behind it, and part of one more. */
  datatype Prefix = Prefix(lead: string, items: seq<Item>, gaps: seq<string>, part: Part)

  predicate CleanPart(p: Part)
  {
    match p
    case AtKey(k) => k == "" || CleanKey(k)
    case AtValue(k, segments) => CleanKey(k) && CleanSegments(segments)
    case AtQuotes(k, segments, chars) => CleanKey(k) && CleanSegments(segments) && CleanChars(chars)
    case AtEscape(k, segments, chars) => CleanKey(k) && CleanSegments(segments) && CleanChars(chars)
  }

  function PartText(p: Part): (r: string)
  {
    match p
    case AtKey(k) => k
    case AtValue(k, segments) => ItemText(Pair(k, segments))
    case AtQuotes(k, segments, chars) => ItemText(Pair(k, segments)) + "\"" + CharsText(chars)
    case AtEscape(k, segments, chars) => ItemText(Pair(k, segments)) + "\"" + CharsText(chars) + "\\"
  }

  /** What the parser knows by then. */
  function PartState(p: Part, result: Pairs): (s: State)
  {
    match p
    case AtKey(k) => State(InKey, false, k, "", result)
    case AtValue(k, segments) => State(InValue, false, k, Value(segments), result)
    case AtQuotes(k, segments, chars) => State(InQuotes, false, k, Value(segments) + CharsValue(chars), result)
    case AtEscape(k, segments, chars) => State(InQuotes, true, k, Value(segments) + CharsValue(chars), result)
  }

  predicate CleanPrefix(w: Prefix)
  {
    Blanks(w.lead) && |w.gaps| == |w.items| && GoodGaps(w.gaps) && CleanItems(w.items) && CleanPart(w.part)
  }

  /** Items, each with a run of blanks behind it. */
  function Spaced(items: seq<Item>, gaps: seq<string>): (r: string)
    requires |gaps| == |items|
  {
    if items == [] then ""
    else
      var m := |items| - 1;
      Spaced(items[..m], gaps[..m]) + ItemText(items[m]) + gaps[m]
  }

  function PrefixText(w: Prefix): (r: string)
    requires CleanPrefix(w)
  {
    w.lead + Spaced(w.items, w.gaps) + PartText(w.part)
  }

  function PrefixState(w: Prefix): (s: State)
  {
    PartState(w.part, Meaning(w.items, map[]))
  }

  // ---------- Reading the start of a line ----------

  lemma RunPart(p: Part, result: Pairs)
    requires CleanPart(p)
    ensures Run(Fresh(result), PartText(p)) == Ok(PartState(p, result))
  {
    match p
    case AtKey(k) =>
      RunKey(Fresh(result), k);
      assert "" + k == k;
    case AtValue(k, segments) => RunItem(Pair(k, segments), result);
    case AtQuotes(k, segments, chars) => RunInQuotes(k, segments, chars, result);
    case AtEscape(k, segments, chars) =>
      RunInQuotes(k, segments, chars, result);
      RunConcat(Fresh(result), PartText(AtQuotes(k, segments, chars)), "\\");
      RunOne(PartState(AtQuotes(k, segments, chars), result), '\\');
  }

  lemma RunInQuotes(k: string, segments: seq<Segment>, chars: seq<Quotable>, result: Pairs)
    requires CleanPart(AtQuotes(k, segments, chars))
    ensures Run(Fresh(result), PartText(AtQuotes(k, segments, chars))) ==
            Ok(PartState(AtQuotes(k, segments, chars), result))
  {
    var text, s := ItemText(Pair(k, segments)), AfterItem(Pair(k, segments), result);
    RunItem(Pair(k, segments), result);
    RunConcat(Fresh(result), text, "\"");
    RunOne(s, '"');
    RunConcat(Fresh(result), text + "\"", CharsText(chars));
    RunChars(s.(mode := InQuotes), chars);
  }

  lemma {:induction false} MeaningSnoc(items: seq<Item>, item: Item, before: Pairs)
    ensures Meaning(items + [item], before) == Meaning([item], Meaning(items, before))
  {
    if items == [] {
      assert items + [item] == [item];
    } else {
      MeaningSnoc(items[1..], item, before[items[0].key := ItemValue(items[0])]);
      assert (items + [item])[1..] == items[1..] + [item];
    }
  }

  lemma SpacedSnoc(items: seq<Item>, gaps: seq<string>, item: Item, gap: string)
    requires |gaps| == |items|
    ensures Spaced(items + [item], gaps + [gap]) == Spaced(items, gaps) + ItemText(item) + gap
  {
    assert (items + [item])[..|items|] == items && (gaps + [gap])[..|gaps|] == gaps;
  }

  lemma RunOneMore(front: string, result: Pairs, item: Item, gap: string)
    requires Run(Fresh(map[]), front) == Ok(Fresh(result)) && CleanItem(item) && Blanks(gap) && gap != ""
    ensures Run(Fresh(map[]), front + ItemText(item) + gap) == Ok(Fresh(Meaning([item], result)))
  {
    RunConcat(Fresh(map[]), front, ItemText(item));
    RunItem(item, result);
    RunConcat(Fresh(map[]), front + ItemText(item), gap);
    RunGap(item, result, gap);
  }

  lemma {:induction false} RunSpaced(items: seq<Item>, gaps: seq<string>)
    requires |gaps| == |items| && GoodGaps(gaps) && CleanItems(items)
    ensures Run(Fresh(map[]), Spaced(items, gaps)) == Ok(Fresh(Meaning(items, map[])))
  {
    if items != [] {
      var m := |items| - 1;
      RunSpaced(items[..m], gaps[..m]);
      RunOneMore(Spaced(items[..m], gaps[..m]), Meaning(items[..m], map[]), items[m], gaps[m]);
      MeaningSnoc(items[..m], items[m], map[]);
      assert items[..m] + [items[m]] == items;
    }
  }

  /** The parser reads the start of a line as what it is. */
  lemma RunPrefix(w: Prefix)
    requires CleanPrefix(w)
    ensures Run(Fresh(map[]), PrefixText(w)) == Ok(PrefixState(w))
  {
    RunBlanks(map[], w.lead);
    RunConcat(Fresh(map[]), w.lead, Spaced(w.items, w.gaps));
    RunSpaced(w.items, w.gaps);
    RunConcat(Fresh(map[]), w.lead + Spaced(w.items, w.gaps), PartText(w.part));
    RunPart(w.part, Meaning(w.items, map[]));
  }

  // ---------- Whatever is read is the start of a line ----------

  /** What the parser refuses to read next. */
  function Refuses(p: Part, c: char): (e: Option<Error>)
  {
    if p.AtQuotes? || p.AtEscape? then None
    else if c == '\\' then Some(EscapeOutsideQuotes)
    else if c == '"' && p.AtKey? then Some(QuoteInKey)
    else if c == '=' && p == AtKey("") then Some(EmptyKey)
    else None
  }

  /** What the parser refuses to end with. */
  function Unfinished(p: Part): (e: Option<Error>)
  {
    if p.AtEscape? then Some(UnterminatedEscape) else if p.AtQuotes? then Some(UnterminatedQuote) else None
  }

  /** A blank that ends an item or comes between two. */
  predicate Separates(p: Part, c: char)
  {
    IsBlank(c) && (p.AtKey? || p.AtValue?)
  }

  /** The part with one more character. */
  function Grown(p: Part, c: char): (p': Part)
    requires Refuses(p, c) == None && !Separates(p, c)
  {
    match p
    case AtKey(k) => if c == '=' then AtValue(k, []) else AtKey(k + [c])
    case AtValue(k, segments) => if c == '"' then AtQuotes(k, segments, []) else AtValue(k, segments + [Plain([c])])
    case AtQuotes(k, segments, chars) =>
      if c == '\\' then AtEscape(k, segments, chars)
      else if c == '"' then AtValue(k, segments + [Quoted(chars)])
      else AtQuotes(k, segments, chars + [Bare(c)])
    case AtEscape(k, segments, chars) => AtQuotes(k, segments, chars + [Escaped(c)])
  }

  lemma CharsSnoc(chars: seq<Quotable>, q: Quotable)
    ensures CharsText(chars + [q]) == CharsText(chars) + CharText(q)
    ensures CharsValue(chars + [q]) == CharsValue(chars) + [q.c]
  {
    assert (chars + [q])[..|chars|] == chars;
  }

  lemma SegmentsSnoc(k: string, segments: seq<Segment>, segment: Segment)
    ensures ItemText(Pair(k, segments + [segment])) == ItemText(Pair(k, segments)) + SegmentText(segment)
    ensures Value(segments + [segment]) == Value(segments) + SegmentValue(segment)
  {
    assert (segments + [segment])[..|segments|] == segments;
    Assoc("=", SegmentsText(segments), SegmentText(segment));
    Assoc(k, "=" + SegmentsText(segments), SegmentText(segment));
  }

  lemma KeyGrows(k: string, c: char)
    requires CleanPart(AtKey(k)) && Refuses(AtKey(k), c) == None && !Separates(AtKey(k), c)
    ensures CleanPart(Grown(AtKey(k), c)) && PartText(Grown(AtKey(k), c)) == PartText(AtKey(k)) + [c]
  {
    if c == '=' { assert k + "=" + "" == k + "="; }
  }

  lemma ValueGrows(k: string, segments: seq<Segment>, c: char)
    requires var p := AtValue(k, segments); CleanPart(p) && Refuses(p, c) == None && !Separates(p, c)
    ensures var p := AtValue(k, segments); CleanPart(Grown(p, c)) && PartText(Grown(p, c)) == PartText(p) + [c]
  {
    if c == '"' {
      assert CharsText([]) == "";
    } else {
      SegmentsSnoc(k, segments, Plain([c]));
    }
  }

  lemma QuotesGrow(k: string, segments: seq<Segment>, chars: seq<Quotable>, c: char)
    requires CleanPart(AtQuotes(k, segments, chars))
    ensures var p := AtQuotes(k, segments, chars);
            CleanPart(Grown(p, c)) && PartText(Grown(p, c)) == PartText(p) + [c]
  {
    var text := ItemText(Pair(k, segments));
    if c == '"' {
      SegmentsSnoc(k, segments, Quoted(chars));
      Assoc(text, "\"", CharsText(chars));
      Assoc(text, "\"" + CharsText(chars), "\"");
    } else if c != '\\' {
      CharsSnoc(chars, Bare(c));
      Assoc(text + "\"", CharsText(chars), [c]);
    }
  }

  lemma EscapeGrows(k: string, segments: seq<Segment>, chars: seq<Quotable>, c: char)
    requires CleanPart(AtEscape(k, segments, chars))
    ensures var p := AtEscape(k, segments, chars);
            CleanPart(Grown(p, c)) && PartText(Grown(p, c)) == PartText(p) + [c]
  {
    CharsSnoc(chars, Escaped(c));
    var text := ItemText(Pair(k, segments)) + "\"" + CharsText(chars);
    assert ['\\', c] == "\\" + [c];
    Assoc(text, "\\", [c]);
    Assoc(ItemText(Pair(k, segments)) + "\"", CharsText(chars), ['\\', c]);
  }

  lemma PartGrows(p: Part, c: char)
    requires CleanPart(p) && Refuses(p, c) == None && !Separates(p, c)
    ensures CleanPart(Grown(p, c)) && PartText(Grown(p, c)) == PartText(p) + [c]
  {
    match p
    case AtKey(k) => KeyGrows(k, c);
    case AtValue(k, segments) => ValueGrows(k, segments, c);
    case AtQuotes(k, segments, chars) => QuotesGrow(k, segments, chars, c);
    case AtEscape(k, segments, chars) => EscapeGrows(k, segments, chars, c);
  }

  /** The start of a line with one more blank. */
  function Separated(w: Prefix, c: char): (w': Prefix)
    requires CleanPrefix(w)
  {
    match w.part
    case AtKey(k) =>
      if k != "" then Prefix(w.lead, w.items + [Flag(k)], w.gaps + [[c]], AtKey(""))
      else if w.items == [] then w.(lead := w.lead + [c])
      else w.(gaps := w.gaps[..|w.gaps| - 1] + [w.gaps[|w.gaps| - 1] + [c]])
    case AtValue(k, segments) => Prefix(w.lead, w.items + [Pair(k, segments)], w.gaps + [[c]], AtKey(""))
    case _ => w
  }

  lemma OneMore(lead: string, front: string, text: string, gap: string)
    ensures lead + (front + text + gap) + "" == lead + front + text + gap
  {
    Assoc(lead, front, text);
    Assoc(lead, front + text, gap);
  }

  lemma GapMore(lead: string, front: string, gap: string, more: string)
    ensures lead + (front + (gap + more)) + "" == lead + (front + gap) + "" + more
  {
    Assoc(front, gap, more);
    Assoc(lead, front + gap, more);
    assert lead + (front + gap) + "" == lead + (front + gap);
  }

  lemma ItemEnds(w: Prefix, item: Item, c: char)
    requires CleanPrefix(w) && CleanItem(item) && PartText(w.part) == ItemText(item) && IsBlank(c)
    ensures var w' := Prefix(w.lead, w.items + [item], w.gaps + [[c]], AtKey(""));
            CleanPrefix(w') && PrefixText(w') == PrefixText(w) + [c]
  {
    SpacedSnoc(w.items, w.gaps, item, [c]);
    OneMore(w.lead, Spaced(w.items, w.gaps), ItemText(item), [c]);
  }

  lemma GapGrows(lead: string, items: seq<Item>, gaps: seq<string>, c: char)
    requires CleanPrefix(Prefix(lead, items, gaps, AtKey(""))) && items != [] && IsBlank(c)
    ensures var w := Prefix(lead, items, gaps, AtKey(""));
            CleanPrefix(Separated(w, c)) && PrefixText(Separated(w, c)) == PrefixText(w) + [c]
  {
    var m := |items| - 1;
    var gaps' := gaps[..m] + [gaps[m] + [c]];
    assert gaps'[..m] == gaps[..m];
    assert Spaced(items, gaps') == Spaced(items[..m], gaps[..m]) + ItemText(items[m]) + (gaps[m] + [c]);
    GapMore(lead, Spaced(items[..m], gaps[..m]) + ItemText(items[m]), gaps[m], [c]);
  }

  lemma PrefixSeparates(w: Prefix, c: char)
    requires CleanPrefix(w) && Separates(w.part, c)
    ensures CleanPrefix(Separated(w, c)) && PrefixText(Separated(w, c)) == PrefixText(w) + [c]
  {
    match w.part
    case AtKey(k) =>
      if k != "" {
        assert k + "" == k;
        ItemEnds(w, Flag(k), c);
      } else if w.items != [] {
        GapGrows(w.lead, w.items, w.gaps, c);
      } else {
        assert w.lead + "" + "" == w.lead && w.lead + [c] + "" + "" == w.lead + [c];
      }
    case AtValue(k, segments) => ItemEnds(w, Pair(k, segments), c);
  }

  lemma PrefixGrows(w: Prefix, c: char) returns (w': Prefix)
    requires CleanPrefix(w) && Refuses(w.part, c) == None
    ensures CleanPrefix(w') && PrefixText(w') == PrefixText(w) + [c]
  {
    if Separates(w.part, c) {
      PrefixSeparates(w, c);
      w' := Separated(w, c);
    } else {
      PartGrows(w.part, c);
      Assoc(w.lead + Spaced(w.items, w.gaps), PartText(w.part), [c]);
      w' := w.(part := Grown(w.part, c));
    }
  }

  lemma RefusedStep(w: Prefix, c: char)
    requires CleanPrefix(w) && Refuses(w.part, c).Some?
    ensures Step(PrefixState(w), c) == Err(Refuses(w.part, c).value)
  {
  }

  /** What the parser refuses to go on with: a character or the end. */
  function Stops(p: Part, rest: string): (e: Option<Error>)
  {
    if rest == "" then Unfinished(p) else Refuses(p, rest[0])
  }

  lemma Shift(front: string, rest: string)
    requires rest != ""
    ensures front + [rest[0]] + rest[1..] == front + rest
  {
    Assoc(front, [rest[0]], rest[1..]);
    assert [rest[0]] + rest[1..] == rest;
  }

  /** The start of a line grows until the parser refuses what comes next. */
  lemma {:induction false} ReadsOn(w: Prefix, rest: string) returns (w': Prefix, rest': string)
    requires CleanPrefix(w)
    ensures CleanPrefix(w') && (rest' == "" || Refuses(w'.part, rest'[0]).Some?)
    ensures PrefixText(w') + rest' == PrefixText(w) + rest
    decreases |rest|
  {
    if rest == "" || Refuses(w.part, rest[0]).Some? { return w, rest; }
    Shift(PrefixText(w), rest);
    w' := PrefixGrows(w, rest[0]);
    w', rest' := ReadsOn(w', rest[1..]);
  }

  lemma NothingRead(w: Prefix, text: string)
    requires w == Prefix("", [], [], AtKey(""))
    ensures CleanPrefix(w) && text == PrefixText(w) + text
  {
  }

  /** Every text is the start of a line up to where the parser stops. */
  lemma Reads(text: string) returns (w: Prefix, rest: string)
    ensures CleanPrefix(w) && (rest == "" || Refuses(w.part, rest[0]).Some?)
    ensures text == PrefixText(w) + rest
  {
    w := Prefix("", [], [], AtKey(""));
    NothingRead(w, text);
    w, rest := ReadsOn(w, text);
  }

  lemma StepFails(front: string, rest: string, s: State)
    requires Run(Fresh(map[]), front) == Ok(s) && rest != "" && Step(s, rest[0]).Err?
    ensures ParseText(front + rest) == Err(Step(s, rest[0]).error)
  {
    RunConcat(Fresh(map[]), front, rest);
  }

  predicate StopsWith(text: string, w: Prefix, rest: string, e: Error)
  {
    CleanPrefix(w) && text == PrefixText(w) + rest && Stops(w.part, rest) == Some(e)
  }

  lemma StopsWithError(text: string, w: Prefix, rest: string, e: Error)
    requires StopsWith(text, w, rest, e)
    ensures ParseText(text) == Err(e)
  {
    RunPrefix(w);
    if rest == "" {
      assert text == PrefixText(w);
    } else {
      RefusedStep(w, rest[0]);
      StepFails(PrefixText(w), rest, PrefixState(w));
    }
  }

  /** The start of a line that can be the whole of it. */
  lemma ReadToTheEnd(text: string) returns (w: Prefix)
    requires ParseText(text).Ok?
    ensures CleanPrefix(w) && PrefixText(w) == text && Unfinished(w.part) == None
  {
    var rest;
    w, rest := Reads(text);
    if Stops(w.part, rest).Some? { StopsWithError(text, w, rest, Stops(w.part, rest).value); }
  }

  lemma ReadWhole(w: Prefix, rest: string)
    requires CleanPrefix(w) && rest == "" && Unfinished(w.part) == None
    ensures ParseText(PrefixText(w) + rest).Ok?
  {
    RunPrefix(w);
    assert PrefixText(w) + rest == PrefixText(w);
  }

  /** Errors are what they say: a text is refused with one exactly if it starts with items and part of
      one more that cannot be followed by the next character, or by the end. */
  lemma RefusedIff(text: string, e: Error)
    ensures ParseText(text) == Err(e) <==> exists w, rest :: StopsWith(text, w, rest, e)
  {
    if ParseText(text) == Err(e) {
      var w, rest := Reads(text);
      if Stops(w.part, rest).None? {
        ReadWhole(w, rest);
      } else {
        assert StopsWith(text, w, rest, Stops(w.part, rest).value);
        StopsWithError(text, w, rest, Stops(w.part, rest).value);
      }
    }
    forall w, rest | StopsWith(text, w, rest, e) ensures ParseText(text) == Err(e) {
      StopsWithError(text, w, rest, e);
    }
  }

  lemma SpacedIsFrontSnoc(items: seq<Item>, gaps: seq<string>, item: Item, gap: string)
    requires |gaps| == |items| && Spaced(items, gaps) == Front(items, gaps)
    ensures Spaced(items + [item], gaps + [gap]) == Front(items + [item], gaps + [gap])
  {
    SpacedSnoc(items, gaps, item, gap);
    ItemsTextSnoc(items, gaps, item, gap);
  }

  lemma {:induction false} SpacedIsFront(items: seq<Item>, gaps: seq<string>)
    requires |gaps| == |items|
    ensures Spaced(items, gaps) == Front(items, gaps)
  {
    if items != [] {
      var m := |items| - 1;
      var init, last, gaps', gap := items[..m], items[m], gaps[..m], gaps[m];
      assert init + [last] == items;
      assert gaps' + [gap] == gaps;
      SpacedIsFront(init, gaps');
      SpacedIsFrontSnoc(init, gaps', last, gap);
    }
  }

  lemma GapIsTrail(lead: string, items: seq<Item>, gaps: seq<string>) returns (trail: string)
    requires |gaps| == |items| && GoodGaps(gaps)
    ensures Blanks(trail) && lead + Spaced(items, gaps) + "" == lead + ItemsText(items, gaps) + trail
  {
    SpacedIsFront(items, gaps);
    trail := if items == [] then "" else gaps[|gaps| - 1];
    Assoc(lead, ItemsText(items, gaps), trail);
    assert lead + Front(items, gaps) + "" == lead + Front(items, gaps);
  }

  lemma PrefixIsWritten(w: Prefix) returns (items: seq<Item>, gaps: seq<string>, trail: string)
    requires CleanPrefix(w) && Unfinished(w.part) == None
    ensures Blanks(trail) && Writes(PrefixText(w), items, gaps, w.lead, trail)
  {
    if w.part == AtKey("") {
      items, gaps := w.items, w.gaps;
      trail := GapIsTrail(w.lead, items, gaps);
    } else {
      var item := if w.part.AtKey? then Flag(w.part.key) else Pair(w.part.key, w.part.segments);
      items, gaps, trail := w.items + [item], w.gaps + [" "], "";
      SpacedIsFront(w.items, w.gaps);
      ItemsTextSnoc(w.items, w.gaps, item, " ");
      assert w.part.AtKey? ==> w.part.key + "" == w.part.key;
      Assoc(w.lead, Front(w.items, w.gaps), ItemText(item));
      assert PrefixText(w) + "" == PrefixText(w);
    }
  }

  lemma {:induction false} TrimLeftSplits(s: string) returns (lead: string)
    ensures s == lead + TrimLeft(s) && Spaces(lead)
  {
    if s != "" && IsSpace(s[0]) {
      lead := TrimLeftSplits(s[1..]);
      Assoc([s[0]], lead, TrimLeft(s[1..]));
      assert s == [s[0]] + s[1..];
      lead := [s[0]] + lead;
    } else {
      lead := "";
    }
  }

  lemma {:induction false} TrimRightSplits(s: string) returns (trail: string)
    ensures s == TrimRight(s) + trail && Spaces(trail)
  {
    if s != "" && IsSpace(s[|s| - 1]) {
      var m := |s| - 1;
      trail := TrimRightSplits(s[..m]);
      Assoc(TrimRight(s[..m]), trail, [s[m]]);
      assert s == s[..m] + [s[m]];
      trail := trail + [s[m]];
    } else {
      trail := "";
    }
  }

  lemma Regroup(a: string, lead: string, all: string, trail: string, b: string)
    ensures a + (lead + all + trail + b) == a + lead + all + (trail + b)
  {
    Assoc(lead + all, trail, b);
    Assoc(lead, all, trail + b);
    Assoc(a, lead, all + (trail + b));
    Assoc(a + lead, all, trail + b);
  }

  lemma WritesAround(text: string, items: seq<Item>, gaps: seq<string>, lead: string, trail: string,
                     a: string, b: string)
    requires Writes(text, items, gaps, lead, trail) && Spaces(a) && Spaces(b)
    ensures Writes(a + (text + b), items, gaps, a + lead, trail + b)
  {
    Regroup(a, lead, ItemsText(items, gaps), trail, b);
  }

  lemma AcceptedIsWritten(line: string) returns (items: seq<Item>, gaps: seq<string>, lead: string, trail: string)
    requires ParseLine(line).Ok?
    ensures Writes(line, items, gaps, lead, trail)
  {
    var text := TrimRight(TrimLeft(line));
    var a := TrimLeftSplits(line);
    var b := TrimRightSplits(TrimLeft(line));
    var w := ReadToTheEnd(text);
    items, gaps, trail := PrefixIsWritten(w);
    WritesAround(text, items, gaps, w.lead, trail, a, b);
    lead, trail := a + w.lead, trail + b;
  }

  /** The parser accepts exactly the lines that are written as items, and reads them as what these mean
      once the line is trimmed. */
  lemma AcceptedIffWritten(line: string, m: Pairs)
    ensures ParseLine(line) == Ok(m) <==>
            exists items, gaps, lead, trail ::
              && Writes(line, items, gaps, lead, trail)
              && !Broken(Trimmed(items)) && Meaning(Trimmed(items), map[]) == m
  {
    if ParseLine(line) == Ok(m) {
      var items, gaps, lead, trail := AcceptedIsWritten(line);
      ParseInvertsWriting(line, items, gaps, lead, trail);
    }
    forall items, gaps, lead, trail |
      && Writes(line, items, gaps, lead, trail)
      && !Broken(Trimmed(items)) && Meaning(Trimmed(items), map[]) == m
      ensures ParseLine(line) == Ok(m)
    {
      ParseInvertsWriting(line, items, gaps, lead, trail);
    }
  }

  // ---------- Whatever is parsed ----------

  ghost predicate CleanKeys(m: Pairs)
  {
    forall k | k in m :: CleanKey(k)
  }

  ghost predicate Sane(s: State)
  {
    && CleanKeys(s.result)
    && (s.key != "" ==> CleanKey(s.key))
    && (!s.mode.InKey? ==> s.key != "")
    && (s.inEscape ==> s.mode.InQuotes?)
  }

  lemma {:induction false} RunSane(s: State, text: string)
    requires Sane(s)
    ensures Run(s, text).Ok? ==> Sane(Run(s, text).value)
    decreases |text|
  {
    if text != "" && Step(s, text[0]).Ok? { RunSane(Step(s, text[0]).value, text[1..]); }
  }

  /** Every key of an accepted command line is clean: no character of it is a blank, a tab, an equals
      sign, a quote or a backslash. */
  lemma ParsedKeysAreClean(cmdline: string)
    requires ParseLine(cmdline).Ok?
    ensures CleanKeys(ParseLine(cmdline).value)
    ensures forall k, c | k in ParseLine(cmdline).value && c in k :: c !in {' ', '\t', '=', '"', '\\'}
    ensures "" !in ParseLine(cmdline).value
  {
    RunSane(Fresh(map[]), TrimRight(TrimLeft(cmdline)));
  }

  // ---------- Writing again what was parsed ----------

  /** The key being read can lead, or one that was read can. */
  ghost predicate HasLead(s: State)
  {
    CanLead(s.key) || exists k :: k in s.result && CanLead(k)
  }

  lemma StepKeepsLead(s: State, c: char)
    requires HasLead(s) && Step(s, c).Ok?
    ensures HasLead(Step(s, c).value)
  {
    var s' := Step(s, c).value;
    if CanLead(s.key) {
      assert CanLead(s'.key) || (s.key in s'.result && CanLead(s.key));
    } else {
      var k :| k in s.result && CanLead(k);
      assert k in s'.result;
    }
  }

  lemma {:induction false} RunKeepsLead(s: State, text: string)
    requires HasLead(s) && Run(s, text).Ok?
    ensures HasLead(Run(s, text).value)
    decreases |text|
  {
    if text != "" {
      StepKeepsLead(s, text[0]);
      RunKeepsLead(Step(s, text[0]).value, text[1..]);
    }
  }

  lemma {:induction false} TrimLeftStarts(s: string)
    ensures TrimLeft(s) == "" || !IsSpace(TrimLeft(s)[0])
  {
    if s != "" { TrimLeftStarts(s[1..]); }
  }

  lemma {:induction false} TrimRightStarts(s: string)
    ensures TrimRight(s) == "" || TrimRight(s)[0] == s[0]
  {
    if s != "" { TrimRightStarts(s[..|s| - 1]); }
  }

  /** The first key of a line can lead, and is still there when the line has been read. */
  lemma ParsedHasLead(cmdline: string)
    requires ParseLine(cmdline).Ok? && ParseLine(cmdline).value != map[]
    ensures exists k :: k in ParseLine(cmdline).value && CanLead(k)
  {
    var left := TrimLeft(cmdline);
    var text := TrimRight(left);
    TrimLeftStarts(cmdline);
    TrimRightStarts(left);
    var s := Fresh(map[]);
    if text != "" {
      assert "" + [text[0]] == [text[0]];
      assert Step(s, text[0]).Ok?;
      RunKeepsLead(s.(key := [text[0]]), text[1..]);
      var end := Run(s, text).value;
      if CanLead(end.key) { assert end.key in ParseLine(cmdline).value; }
    }
  }

  function Restricted(m: Pairs, keys: set<string>): (r: Pairs)
  {
    map k | k in m && k in keys :: m[k]
  }

  /** A value between quotes, with every character escaped. */
  function Escaping(v: string): (chars: seq<Quotable>)
    ensures |chars| == |v| && CleanChars(chars) && CharsValue(chars) == v
  {
    if v == "" then []
    else
      var chars := Escaping(v[..|v| - 1]) + [Escaped(v[|v| - 1])];
      assert chars[..|v| - 1] == Escaping(v[..|v| - 1]);
      assert v == v[..|v| - 1] + [v[|v| - 1]];
      chars
  }

  predicate QuotedPair(item: Item)
  {
    item.Pair? && |item.segments| == 1 && item.segments[0].Quoted?
  }

  lemma QuotedValue(item: Item)
    requires QuotedPair(item)
    ensures ItemValue(item) == CharsValue(item.segments[0].chars)
  {
    assert item.segments[..|item.segments| - 1] == [];
    assert Value([]) == "";
    assert "" + CharsValue(item.segments[0].chars) == CharsValue(item.segments[0].chars);
  }

  function Quote(k: string, v: string): (item: Item)
    requires CleanKey(k)
    ensures QuotedPair(item) && CleanItem(item) && item.key == k && ItemValue(item) == v
  {
    var item := Pair(k, [Quoted(Escaping(v))]);
    QuotedValue(item);
    item
  }

  lemma MeaningCons(item: Item, rest: seq<Item>, before: Pairs)
    ensures Meaning([item] + rest, before) == Meaning(rest, before[item.key := ItemValue(item)])
  {
    assert ([item] + rest)[1..] == rest;
  }

  lemma RestrictedLess(m: Pairs, keys: set<string>, k: string, before: Pairs)
    requires k in keys && keys <= m.Keys
    ensures before[k := m[k]] + Restricted(m, keys - {k}) == before + Restricted(m, keys)
  {
  }

  predicate QuotedPairs(items: seq<Item>)
  {
    forall i | 0 <= i < |items| :: QuotedPair(items[i])
  }

  /** Some of the pairs of m, written one after the other. */
  lemma {:induction false} WriteKeys(m: Pairs, keys: set<string>, before: Pairs) returns (items: seq<Item>)
    requires keys <= m.Keys && CleanKeys(m)
    ensures CleanItems(items) && QuotedPairs(items)
    ensures Meaning(items, before) == before + Restricted(m, keys)
    decreases |keys|
  {
    if keys == {} {
      items := [];
      assert before + Restricted(m, keys) == before;
    } else {
      var k :| k in keys;
      var rest := WriteKeys(m, keys - {k}, before[k := m[k]]);
      var item := Quote(k, m[k]);
      items := [item] + rest;
      MeaningCons(item, rest, before);
      RestrictedLess(m, keys, k, before);
    }
  }

  lemma WriteAll(m: Pairs, lead: string) returns (items: seq<Item>)
    requires lead in m && CanLead(lead) && CleanKeys(m)
    ensures CleanItems(items) && QuotedPairs(items)
    ensures items != [] && CanLead(items[0].key) && Meaning(items, map[]) == m
  {
    var first := map[lead := m[lead]];
    var rest := WriteKeys(m, m.Keys - {lead}, first);
    var item := Quote(lead, m[lead]);
    items := [item] + rest;
    MeaningCons(item, rest, map[]);
    RestrictedLess(m, m.Keys, lead, map[]);
    assert map[][lead := m[lead]] == first && map[] + Restricted(m, m.Keys) == m;
  }

  /** The same keys and values, each value between one pair of quotes. */
  predicate Requotes(items: seq<Item>, others: seq<Item>)
  {
    && |items| == |others| && CleanItems(others) && QuotedPairs(others)
    && forall i | 0 <= i < |items| :: others[i].key == items[i].key && ItemValue(others[i]) == ItemValue(items[i])
  }

  lemma {:induction false} RequotesMeansTheSame(items: seq<Item>, others: seq<Item>, before: Pairs)
    requires Requotes(items, others)
    ensures Meaning(items, before) == Meaning(others, before)
  {
    if items != [] {
      assert others[0].key == items[0].key;
      RequotesMeansTheSame(items[1..], others[1..], before[items[0].key := ItemValue(items[0])]);
    }
  }

  lemma RequotedParses(items: seq<Item>, line: string, others: seq<Item>, gaps: seq<string>,
                       lead: string, trail: string)
    requires Requotes(items, others) && Writes(line, others, gaps, lead, trail)
    requires items != [] ==> CanLead(items[0].key)
    ensures ParseLine(line) == Ok(Meaning(items, map[]))
  {
    if others != [] {
      assert others[0].key == items[0].key;
      assert QuotedPair(others[|others| - 1]);
    }
    NothingTrimmed(others);
    RequotesMeansTheSame(items, others, map[]);
    ParseInvertsWriting(line, others, gaps, lead, trail);
  }

  /** What was parsed can be written again: there are pairs that mean it, and that trimming leaves
      alone. However they are spaced, quoted and escaped, they parse to the same. */
  lemma WrittenAgain(cmdline: string) returns (items: seq<Item>)
    requires ParseLine(cmdline).Ok?
    ensures CleanItems(items) && Trimmed(items) == items && Meaning(items, map[]) == ParseLine(cmdline).value
    ensures Requotes(items, items)
    ensures forall line, others: seq<Item>, gaps, lead, trail |
              Requotes(items, others) && Writes(line, others, gaps, lead, trail) ::
              ParseLine(line) == ParseLine(cmdline)
  {
    var m := ParseLine(cmdline).value;
    ParsedKeysAreClean(cmdline);
    if m == map[] {
      items := [];
    } else {
      ParsedHasLead(cmdline);
      var k :| k in m && CanLead(k);
      items := WriteAll(m, k);
    }
    NothingTrimmed(items);
    forall line, others: seq<Item>, gaps, lead, trail |
      Requotes(items, others) && Writes(line, others, gaps, lead, trail)
      ensures ParseLine(line) == ParseLine(cmdline)
    {
      RequotedParses(items, line, others, gaps, lead, trail);
    }
  }
}
